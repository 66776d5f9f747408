/** Connectivity fault management (ovs/lib/cfm.c): the table of remote
 * maintenance points and the fault check of the Continuity Check protocol of
 * IEEE 802.1ag.
 */
module Cfm {
  import opened Options
  import opened PriorityList

  const CFM_MAX_RMPS := 256
  const CCM_OPCODE := 1
  const CFM_HEALTH_INTERVAL := 6

  datatype Fault = Recv | Rdi | Maid | Loopback | Overflow | Override | Interval

  /** struct ccm, as far as it is read; the MAID is compared as a whole. */
  datatype Ccm = Ccm(opcode: nat, maid: seq<nat>, interval: nat, rdi: bool, intervalMsX: nat,
                     mpid: nat, mpid64: nat, opdown: bool, seqNo: nat)

  /** struct remote_mp, without its MPID. */
  datatype RemoteMp = RemoteMp(recv: bool, opup: bool, seqNo: nat, numHealthCcm: nat, lastRx: int)

  /** The MPIDs known, those heard of since the last fault check, and those known to be down. */
  datatype Peers = Peers(known: set<nat>, heard: set<nat>, down: set<nat>)

  const NO_PEERS := Peers({}, {}, {})

  /** A CCM is taken in if its MPID is known or there is room for it. */
  function Hear(p: Peers, mpid: nat, opdown: bool): Peers {
    if mpid in p.known || |p.known| < CFM_MAX_RMPS then
      Peers(p.known + {mpid}, p.heard + {mpid}, if opdown then p.down + {mpid} else p.down - {mpid})
    else p
  }

  /** A fault check keeps those heard of since the last one. */
  function Check(p: Peers): Peers {
    Peers(p.heard, {}, p.down * p.heard)
  }

  /** The share, in percent, of the 3.5 CCMs due in each of the intervals that health is taken over. */
  function Percent(ccms: nat): (p: nat)
    ensures p <= 100 && (p == 100 <==> 2 * ccms >= 7 * CFM_HEALTH_INTERVAL)
  {
    var p := ccms * 100 / (CFM_HEALTH_INTERVAL * 7 / 2);
    if p < 100 then p else 100
  }

  lemma PercentIs(ccms: nat)
    ensures Percent(ccms) == if ccms * 100 / 21 > 100 then 100 else ccms * 100 / 21
  {}

  /** The health after a check: with one remote maintenance point the percentage of its CCMs, -1 with
   * several, 0 with none, taken at every sixth check. */
  ghost function Health(rmps: map<nat, RemoteMp>, interval: nat, health: int): int {
    if interval != 6 then health
    else if |rmps.Keys| > 1 then -1
    else if rmps.Keys == {} then 0
    else var m :| m in rmps; Percent(rmps[m].numHealthCcm)
  }

  /** A record after a check that keeps it. */
  ghost function Checked(rmps: map<nat, RemoteMp>, m: nat, interval: nat): RemoteMp
    requires m in rmps
  {
    var counted := interval == 6 && |rmps.Keys| == 1;
    rmps[m].(recv := false, numHealthCcm := if counted then 0 else rmps[m].numHealthCcm)
  }

  ghost function HeardOf(rmps: map<nat, RemoteMp>): set<nat> {
    set m | m in rmps && rmps[m].recv
  }

  ghost function DownOf(rmps: map<nat, RemoteMp>): set<nat> {
    set m | m in rmps && !rmps[m].opup
  }

  ghost function PeersOf(rmps: map<nat, RemoteMp>): Peers {
    Peers(rmps.Keys, HeardOf(rmps), DownOf(rmps))
  }

  lemma HeardAfter(rmps: map<nat, RemoteMp>, m: nat, r: RemoteMp)
    requires r.recv && (m in rmps || |rmps.Keys| < CFM_MAX_RMPS)
    ensures rmps[m := r].Keys == rmps.Keys + {m} && PeersOf(rmps[m := r]) == Hear(PeersOf(rmps), m, !r.opup)
  {
    assert HeardOf(rmps[m := r]) == HeardOf(rmps) + {m};
    assert DownOf(rmps[m := r]) == if r.opup then DownOf(rmps) - {m} else DownOf(rmps) + {m};
  }

  lemma CounterReset(rmps: map<nat, RemoteMp>, m: nat)
    requires m in rmps
    ensures PeersOf(rmps[m := rmps[m].(numHealthCcm := 0)]) == PeersOf(rmps)
  {
    var out := rmps[m := rmps[m].(numHealthCcm := 0)];
    assert out.Keys == rmps.Keys && HeardOf(out) == HeardOf(rmps) && DownOf(out) == DownOf(rmps);
  }

  lemma OnlyPeer(rmps: map<nat, RemoteMp>, m: nat, health: int)
    requires m in rmps && |rmps.Keys| <= 1
    ensures rmps.Keys == {m} && |rmps.Keys| == 1 && Health(rmps, 6, health) == Percent(rmps[m].numHealthCcm)
  {
    OneKey(rmps.Keys, m);
  }

  class Cfm {
    var mpid: nat
    var maid: seq<nat>
    var extended: bool
    var ccmInterval: nat
    var ccmIntervalMs: nat
    var booted: bool
    var fault: set<Fault>
    var recvFault: set<Fault>
    var remoteOpup: bool
    var faultTimer: int
    var remoteMps: map<nat, RemoteMp>
    var order: seq<nat>            // the iteration order of the hash map 'remote_mps'
    var rmpsArray: seq<nat>
    var health: int
    var healthInterval: nat

    ghost function Value(): Peers
      reads this
    {
      PeersOf(remoteMps)
    }

    ghost predicate Valid()
      reads this
    {
      && Lists(order, remoteMps.Keys)
      && |remoteMps.Keys| <= CFM_MAX_RMPS
      && healthInterval <= CFM_HEALTH_INTERVAL
      && -1 <= health <= 100
      && Recv !in recvFault
    }

    constructor (mpid: nat, maid: seq<nat>, extended: bool, interval: nat, intervalMs: nat, now: int)
      ensures Valid() && Value() == NO_PEERS && rmpsArray == [] && fault == recvFault == {} && remoteOpup && !booted
      ensures this.mpid == mpid && this.maid == maid && this.extended == extended
      ensures ccmInterval == interval && ccmIntervalMs == intervalMs && faultTimer == now + intervalMs * 7 / 2
      ensures health == -1 && healthInterval == 0
    {
      this.mpid, this.maid, this.extended := mpid, maid, extended;
      ccmInterval, ccmIntervalMs := interval, intervalMs;
      booted, fault, recvFault, remoteOpup := false, {}, {}, true;
      faultTimer := now + intervalMs * 7 / 2;
      remoteMps, order, rmpsArray := map[], [], [];
      health, healthInterval := -1, 0;
      new;
      assert Value().heard == {} && Value().down == {};
    }

    /** The MPID a CCM names. */
    function MpidOf(ccm: Ccm): nat
      reads this`extended
    {
      if extended then ccm.mpid64 else ccm.mpid
    }

    /** Is the CCM one of this maintenance association? */
    predicate Ours(ccm: Option<Ccm>)
      reads this`maid
    {
      ccm.Some? && ccm.value.opcode == CCM_OPCODE && ccm.value.maid == maid
    }

    /** cfm_process_heartbeat; a message too short to parse is `None`. */
    method ProcessHeartbeat(message: Option<Ccm>, now: int)
      requires Valid()
      modifies this`remoteMps, this`order, this`recvFault
      ensures Valid()
      ensures message.None? || message.value.opcode != 1 ==> unchanged(this)
      ensures Ours(message) ==>
                Value() == Hear(old(Value()), MpidOf(message.value), extended && message.value.opdown)
      ensures !Ours(message) ==> remoteMps == old(remoteMps)
      ensures !Ours(message) ==>
                recvFault == if message.Some? && message.value.opcode == CCM_OPCODE then old(recvFault) + {Maid}
                             else old(recvFault)
      ensures Ours(message) && MpidOf(message.value) !in remoteMps ==>
                remoteMps == old(remoteMps) && recvFault == old(recvFault)
      ensures message.Some? && message.value.opcode == 1 && message.value.maid == maid &&
              (if extended then message.value.mpid64 else message.value.mpid) in remoteMps ==>
                var ccm := message.value;
                var m := if extended then ccm.mpid64 else ccm.mpid;
                var faults :=
                  (if ccm.interval != ccmInterval || (extended && ccm.interval == 0 && ccm.intervalMsX != ccmIntervalMs)
                   then {Interval} else {}) +
                  (if ccm.rdi then {Rdi} else {}) +
                  (if (if m in old(remoteMps) then m else 0) == mpid then {Loopback} else {});
                var ccms := if m in old(remoteMps) then old(remoteMps)[m].numHealthCcm else 0;
                && recvFault == old(recvFault) + faults
                && remoteMps == old(remoteMps)[m := remoteMps[m]]
                && remoteMps[m].recv && (remoteMps[m].opup <==> !extended || !ccm.opdown)
                && remoteMps[m].seqNo == ccm.seqNo && remoteMps[m].lastRx == now
                && remoteMps[m].numHealthCcm == if faults == {} then (ccms + 1) % 256 else ccms
    {
      hide Lists, HeardOf, DownOf, Hear, Cfm.FaultsOf;
      if message.None? || message.value.opcode != CCM_OPCODE {
        return;
      }
      if message.value.maid != maid {
        recvFault := recvFault + {Maid};
        return;
      }
      TakeIn(message.value, now);
      FaultsAre(message.value, if MpidOf(message.value) in old(remoteMps) then MpidOf(message.value) else 0);
    }

    /** The faults of a CCM; `stored` is the MPID on record, 0 in a new record. */
    function FaultsOf(ccm: Ccm, stored: nat): (faults: set<Fault>)
      reads this`ccmInterval, this`ccmIntervalMs, this`extended, this`mpid
      ensures Recv !in faults
    {
      (if ccm.interval != ccmInterval then {Interval} else {}) +
      (if extended && ccm.interval == 0 && ccm.intervalMsX != ccmIntervalMs then {Interval} else {}) +
      (if ccm.rdi then {Rdi} else {}) +
      (if stored == mpid then {Loopback} else {})
    }

    lemma FaultsAre(ccm: Ccm, stored: nat)
      ensures FaultsOf(ccm, stored) ==
              (if ccm.interval != ccmInterval || (extended && ccm.interval == 0 && ccm.intervalMsX != ccmIntervalMs)
               then {Interval} else {}) +
              (if ccm.rdi then {Rdi} else {}) +
              (if stored == mpid then {Loopback} else {})
    {}

    /** The record a CCM leaves; `was` is the one there was before. */
    function Record(ccm: Ccm, was: Option<RemoteMp>, now: int): (r: RemoteMp)
      reads this`ccmInterval, this`ccmIntervalMs, this`extended, this`mpid
      ensures r.recv && (r.opup <==> !extended || !ccm.opdown)
    {
      var count := if was.Some? then was.value.numHealthCcm else 0;
      var healthy := FaultsOf(ccm, if was.Some? then MpidOf(ccm) else 0) == {};
      RemoteMp(true, !(extended && ccm.opdown), ccm.seqNo, if healthy then (count + 1) % 256 else count, now)
    }

    /** cfm_process_heartbeat, for a CCM of this maintenance association. */
    method TakeIn(ccm: Ccm, now: int)
      requires Valid()
      modifies this`remoteMps, this`order, this`recvFault
      ensures Valid() && Value() == Hear(old(Value()), MpidOf(ccm), extended && ccm.opdown)
      ensures MpidOf(ccm) in old(remoteMps) ==>
                && remoteMps == old(remoteMps)[MpidOf(ccm) := Record(ccm, Some(old(remoteMps)[MpidOf(ccm)]), now)]
                && recvFault == old(recvFault) + FaultsOf(ccm, MpidOf(ccm))
      ensures MpidOf(ccm) !in old(remoteMps) && MpidOf(ccm) in remoteMps ==>
                && remoteMps == old(remoteMps)[MpidOf(ccm) := Record(ccm, None, now)]
                && recvFault == old(recvFault) + FaultsOf(ccm, 0)
      ensures MpidOf(ccm) !in remoteMps ==> remoteMps == old(remoteMps) && recvFault == old(recvFault)
    {
      hide Lists, HeardOf, DownOf, Cfm.FaultsOf, Cfm.Record;
      if MpidOf(ccm) in remoteMps {
        Put(ccm, Record(ccm, Some(remoteMps[MpidOf(ccm)]), now), FaultsOf(ccm, MpidOf(ccm)));
      } else if |remoteMps.Keys| < CFM_MAX_RMPS {
        Put(ccm, Record(ccm, None, now), FaultsOf(ccm, 0));   // an overflow would go unrecorded
      }
    }

    method Put(ccm: Ccm, r: RemoteMp, faults: set<Fault>)
      requires Valid() && r.recv && (r.opup <==> !extended || !ccm.opdown) && Recv !in faults
      requires MpidOf(ccm) in remoteMps || |remoteMps.Keys| < CFM_MAX_RMPS
      modifies this`remoteMps, this`order, this`recvFault
      ensures Valid() && Value() == Hear(old(Value()), MpidOf(ccm), extended && ccm.opdown)
      ensures remoteMps == old(remoteMps)[MpidOf(ccm) := r] && recvFault == old(recvFault) + faults
    {
      hide Lists, PeersOf, Hear;
      var m := MpidOf(ccm);
      HeardAfter(remoteMps, m, r);
      if m in remoteMps {
        assert remoteMps.Keys + {m} == remoteMps.Keys;
        assert remoteMps[m := r].Keys == remoteMps.Keys;
      } else {
        AppendedLists(order, remoteMps.Keys, m);
        order := order + [m];
      }
      remoteMps := remoteMps[m := r];
      recvFault := recvFault + faults;
    }

    /** cfm_run: when the fault timer has expired, a fault check. */
    method Run(now: int)
      requires Valid()
      modifies this`fault, this`recvFault, this`health, this`healthInterval, this`booted, this`faultTimer
      modifies this`remoteMps, this`order, this`rmpsArray, this`remoteOpup
      ensures Valid()
      ensures now < old(faultTimer) ==> unchanged(this)
      ensures now >= old(faultTimer) ==>
                && Value() == Check(old(Value()))
                && Lists(rmpsArray, remoteMps.Keys)
                && fault == old(recvFault) + (if remoteMps.Keys == {} then {Recv} else {})
                && (Recv in fault <==> remoteMps.Keys == {})
                && recvFault == {}
                && (remoteOpup <==> Value().down == {})
                && (forall m | m in remoteMps ::
                      m in old(remoteMps) && remoteMps[m] == Checked(old(remoteMps), m, old(healthInterval)))
                && health == Health(old(remoteMps), old(healthInterval), old(health))
                && healthInterval == old(healthInterval) % CFM_HEALTH_INTERVAL + 1
                && booted && faultTimer == now + ccmIntervalMs * 7 / 2
    {
      hide Lists, HeardOf, DownOf, Check, Checked, Health;
      if now >= faultTimer {
        FaultCheck();
        booted := true;
        faultTimer := now + ccmIntervalMs * 7 / 2;
      }
    }

    /** One fault check. */
    method FaultCheck()
      requires Valid()
      modifies this`fault, this`recvFault, this`health, this`healthInterval
      modifies this`remoteMps, this`order, this`rmpsArray, this`remoteOpup
      ensures Valid() && Value() == Check(old(Value())) && Lists(rmpsArray, remoteMps.Keys)
      ensures fault == old(recvFault) + (if remoteMps.Keys == {} then {Recv} else {}) && recvFault == {}
      ensures remoteOpup <==> Value().down == {}
      ensures forall m | m in remoteMps ::
                m in old(remoteMps) && remoteMps[m] == Checked(old(remoteMps), m, old(healthInterval))
      ensures health == Health(old(remoteMps), old(healthInterval), old(health))
      ensures healthInterval == old(healthInterval) % CFM_HEALTH_INTERVAL + 1
    {
      hide Lists, HeardOf, DownOf, Check, Health;
      fault := recvFault;
      recvFault := {};
      ComputeHealth();
      Sweep();
      NoteSilence();
    }

    method NoteSilence()
      modifies this`fault
      ensures fault == old(fault) + (if remoteMps.Keys == {} then {Recv} else {})
    {
      if remoteMps.Keys == {} {
        fault := fault + {Recv};
      } else {
        assert fault + {} == fault;
      }
    }

    /** The health of a link with one remote maintenance point, in percent. */
    method ComputeHealth()
      requires Valid()
      modifies this`health, this`healthInterval, this`remoteMps
      ensures Valid() && Value() == old(Value())
      ensures remoteMps.Keys == old(remoteMps.Keys)
      ensures forall m | m in remoteMps ::
                remoteMps[m].(recv := false) == Checked(old(remoteMps), m, old(healthInterval))
                && remoteMps[m].recv == old(remoteMps)[m].recv
      ensures health == Health(old(remoteMps), old(healthInterval), old(health))
      ensures old(healthInterval) == CFM_HEALTH_INTERVAL ==>
                && (|remoteMps.Keys| > 1 ==> health == -1)
                && (remoteMps.Keys == {} ==> health == 0)
                && (|remoteMps.Keys| == 1 ==> forall m | m in remoteMps ::
                      && health == Percent(old(remoteMps)[m].numHealthCcm)
                      && remoteMps == old(remoteMps)[m := old(remoteMps)[m].(numHealthCcm := 0)])
      ensures old(healthInterval) != CFM_HEALTH_INTERVAL ==> health == old(health) && remoteMps == old(remoteMps)
      ensures healthInterval == old(healthInterval) % CFM_HEALTH_INTERVAL + 1
    {
      hide PeersOf, Percent;
      if healthInterval == CFM_HEALTH_INTERVAL {
        if |remoteMps| > 1 {
          health := -1;
        } else if remoteMps == map[] {
          health := 0;
        } else {
          assert order != [];
          var m := order[0];
          var rmp := remoteMps[m];
          var expected := (CFM_HEALTH_INTERVAL * 7) / 2;
          health := rmp.numHealthCcm * 100 / expected;
          if health > 100 {
            health := 100;
          }
          assert health == Percent(rmp.numHealthCcm) by {
            PercentIs(rmp.numHealthCcm);
          }
          CounterReset(remoteMps, m);
          OnlyPeer(remoteMps, m, old(health));
          remoteMps := remoteMps[m := rmp.(numHealthCcm := 0)];
          assert remoteMps.Keys == old(remoteMps.Keys);
        }
        healthInterval := 0;
      }
      healthInterval := healthInterval + 1;
    }

    /** The loop of the fault check over the remote maintenance points. */
    method Sweep()
      requires Valid()
      modifies this`remoteMps, this`order, this`rmpsArray, this`remoteOpup
      ensures Valid() && Value() == Check(old(Value()))
      ensures Lists(rmpsArray, remoteMps.Keys)
      ensures remoteOpup <==> Value().down == {}
      ensures forall m | m in remoteMps :: m in old(remoteMps) && remoteMps[m] == old(remoteMps)[m].(recv := false)
    {
      hide Lists, PeersOf, HeardOf, Check;
      var kept;
      kept, rmpsArray, remoteOpup := Heeded(order, remoteMps);
      CheckKeeps(remoteMps, kept);
      remoteMps, order := kept, rmpsArray;
    }
  }

  lemma CheckKeeps(rmps: map<nat, RemoteMp>, kept: map<nat, RemoteMp>)
    requires kept.Keys == HeardOf(rmps) && forall m | m in kept :: m in rmps && kept[m] == rmps[m].(recv := false)
    ensures PeersOf(kept) == Check(PeersOf(rmps)) && |kept.Keys| <= |rmps.Keys|
    ensures (forall m | m in kept :: kept[m].opup) <==> PeersOf(kept).down == {}
  {
    SubsetCard(kept.Keys, rmps.Keys);
    assert HeardOf(kept) == {} && DownOf(kept) == DownOf(rmps) * HeardOf(rmps);
    assert forall m | m in DownOf(kept) :: !kept[m].opup;
    assert forall m | m in kept && !kept[m].opup :: m in DownOf(kept);
  }

  /** The remote maintenance points to be kept, their MPIDs, and whether all of them are up. */
  method Heeded(order: seq<nat>, rmps: map<nat, RemoteMp>)
      returns (kept: map<nat, RemoteMp>, listed: seq<nat>, opup: bool)
    requires Lists(order, rmps.Keys)
    ensures Lists(listed, kept.Keys) && kept.Keys == HeardOf(rmps)
    ensures forall m | m in kept :: m in rmps && kept[m] == rmps[m].(recv := false)
    ensures opup <==> forall m | m in kept :: kept[m].opup
  {
    hide Lists;
    kept, listed, opup := map[], [], true;
    NoneListed();
    assert kept.Keys == {} && order[..0] == [];
    for i := 0 to |order|
      invariant Lists(listed, kept.Keys) && kept.Keys == Heard(order[..i], rmps)
      invariant forall m | m in kept :: m in rmps && kept[m] == rmps[m].(recv := false)
      invariant opup <==> forall m | m in kept :: kept[m].opup
    {
      HeardStep(order, i, rmps);
      var m := order[i];
      var rmp := rmps[m];
      if rmp.recv {
        AppendedLists(listed, kept.Keys, m);
        kept := kept[m := rmp.(recv := false)];
        assert kept.Keys == Heard(order[..i], rmps) + {m};
        if !rmp.opup {
          opup := rmp.opup;
        }
        listed := listed + [m];
      }
    }
    assert order[..|order|] == order;
    AllHeard(order, rmps);
  }

  /** The listed maintenance points heard of since the last check. */
  ghost function Heard(order: seq<nat>, rmps: map<nat, RemoteMp>): set<nat> {
    set m | m in order && m in rmps && rmps[m].recv
  }

  lemma NoneListed()
    ensures Lists<nat>([], {})
  {}

  lemma HeardStep(order: seq<nat>, i: nat, rmps: map<nat, RemoteMp>)
    requires Lists(order, rmps.Keys) && i < |order|
    ensures order[i] in rmps && order[i] !in Heard(order[..i], rmps)
    ensures Heard(order[..i + 1], rmps) == Heard(order[..i], rmps) + if rmps[order[i]].recv then {order[i]} else {}
  {
    assert order[..i + 1] == order[..i] + [order[i]];
    assert order[i] in order;
  }

  lemma AllHeard(order: seq<nat>, rmps: map<nat, RemoteMp>)
    requires Lists(order, rmps.Keys)
    ensures Heard(order, rmps) == HeardOf(rmps)
  {}

  lemma OneKey(s: set<nat>, m: nat)
    requires m in s && |s| <= 1
    ensures s == {m}
  {
    assert |s - {m}| == 0;
  }

  lemma SubsetCard(a: set<nat>, b: set<nat>)
    requires a <= b
    ensures |a| <= |b|
  {
    assert b == a + (b - a);
  }

  // ---------------------------------------------------------------------
  // Whole runs

  /** A CCM that passes the tests, with whether it is extended and says that its sender is down; or a check. */
  datatype Event = Heartbeat(mpid: nat, opdown: bool) | FaultCheck

  function After(p: Peers, events: seq<Event>): Peers {
    if events == [] then p
    else
      var before := After(p, events[..|events| - 1]);
      match events[|events| - 1]
      case Heartbeat(m, opdown) => Hear(before, m, opdown)
      case FaultCheck => Check(before)
  }

  /** The MPIDs of the heartbeats. */
  ghost function Senders(events: seq<Event>): set<nat> {
    set i | 0 <= i < |events| && events[i].Heartbeat? :: events[i].mpid
  }

  ghost predicate OnlyHeartbeats(events: seq<Event>) {
    forall i | 0 <= i < |events| :: events[i].Heartbeat?
  }

  /** In every run the table stays within its size and knows every MPID heard. */
  lemma {:induction false} TableBounded(p: Peers, events: seq<Event>)
    requires |p.known| <= CFM_MAX_RMPS && p.heard <= p.known
    ensures var q := After(p, events); |q.known| <= 256 && q.heard <= q.known
  {
    if events != [] {
      var before := After(p, events[..|events| - 1]);
      TableBounded(p, events[..|events| - 1]);
      SubsetCard(before.heard, before.known);
    }
  }

  /** Between two checks nothing is forgotten, and no more is known than was sent. */
  lemma {:induction false} Listening(p: Peers, beats: seq<Event>)
    requires OnlyHeartbeats(beats) && p.heard <= p.known
    ensures var q := After(p, beats);
            && p.known <= q.known <= p.known + Senders(beats)
            && p.heard <= q.heard <= p.heard + Senders(beats) && q.heard <= q.known
            && (|p.known + Senders(beats)| <= CFM_MAX_RMPS ==>
                  q.heard == p.heard + Senders(beats) && q.known == p.known + Senders(beats))
  {
    if beats != [] {
      var n := |beats| - 1;
      Listening(p, beats[..n]);
      SendersSplit(beats);
      var all, some := p.known + Senders(beats), p.known + Senders(beats[..n]);
      assert some <= all;
      SubsetCard(some, all);
      var before := After(p, beats[..n]);
      if |all| <= CFM_MAX_RMPS && beats[n].mpid !in before.known {
        assert before.known + {beats[n].mpid} <= all;
        SubsetCard(before.known + {beats[n].mpid}, all);
      }
    }
  }

  /** The senders whose CCMs are taken in when `known` are known before: those
   * known, and the others as long as there is room when they are heard. */
  ghost function TakenIn(known: set<nat>, beats: seq<Event>): set<nat> {
    set j | 0 <= j < |beats| && RoomAt(known, beats, j) :: beats[j].mpid
  }

  ghost predicate RoomAt(known: set<nat>, beats: seq<Event>, j: nat)
    requires j < |beats|
  {
    beats[j].Heartbeat? && (beats[j].mpid in known || |known + Senders(beats[..j])| < CFM_MAX_RMPS)
  }

  lemma RoomBefore(known: set<nat>, beats: seq<Event>, n: nat, j: nat)
    requires j < n <= |beats|
    ensures RoomAt(known, beats[..n], j) <==> RoomAt(known, beats, j)
  {
    assert beats[..n][..j] == beats[..j];
  }

  lemma TakenSplit(known: set<nat>, beats: seq<Event>)
    requires beats != [] && OnlyHeartbeats(beats)
    ensures var n := |beats| - 1;
            TakenIn(known, beats) ==
              TakenIn(known, beats[..n]) + if RoomAt(known, beats, n) then {beats[n].mpid} else {}
  {
    hide RoomAt;
    var n := |beats| - 1;
    var was, now := TakenIn(known, beats[..n]), TakenIn(known, beats);
    forall j | 0 <= j < n ensures RoomAt(known, beats[..n], j) <==> RoomAt(known, beats, j) {
      RoomBefore(known, beats, n, j);
    }
    forall m | m in was ensures m in now {
      var j :| 0 <= j < n && RoomAt(known, beats[..n], j) && beats[..n][j].mpid == m;
      assert RoomAt(known, beats, j) && beats[j].mpid == m;
    }
    forall m | m in now ensures m in was || (RoomAt(known, beats, n) && m == beats[n].mpid) {
      var j :| 0 <= j < |beats| && RoomAt(known, beats, j) && beats[j].mpid == m;
      assert j < n ==> RoomAt(known, beats[..n], j) && beats[..n][j].mpid == m;
    }
  }

  /** Between two checks the table takes in exactly those senders; it is full if there were too many. */
  lemma {:induction false} ListeningExact(p: Peers, beats: seq<Event>)
    requires OnlyHeartbeats(beats) && p.heard <= p.known && |p.known| <= CFM_MAX_RMPS
    ensures var q := After(p, beats);
            && q.known == p.known + TakenIn(p.known, beats) && q.heard == p.heard + TakenIn(p.known, beats)
            && (|p.known + Senders(beats)| >= CFM_MAX_RMPS ==> |q.known| == CFM_MAX_RMPS)
  {
    if beats == [] {
      NoneTaken(p.known);
      assert p.known + {} == p.known && p.heard + {} == p.heard;
    } else {
      var n := |beats| - 1;
      var before, m, senders := After(p, beats[..n]), beats[n].mpid, Senders(beats[..n]);
      LastBeat(p, beats);
      hide *;
      ListeningExact(p, beats[..n]);
      Listening(p, beats[..n]);
      TableBounded(p, beats[..n]);
      TakenSplit(p.known, beats);
      HearExact(p, before, TakenIn(p.known, beats[..n]), senders, m, beats[n].opdown);
      if |p.known + Senders(beats)| >= CFM_MAX_RMPS {
        HearFills(p, before, senders, m, beats[n].opdown);
      }
    }
  }

  lemma LastBeat(p: Peers, beats: seq<Event>)
    requires beats != [] && OnlyHeartbeats(beats)
    ensures var n, m := |beats| - 1, beats[|beats| - 1].mpid;
            && OnlyHeartbeats(beats[..n]) && After(p, beats) == Hear(After(p, beats[..n]), m, beats[n].opdown)
            && p.known + Senders(beats) == p.known + Senders(beats[..n]) + {m}
            && (RoomAt(p.known, beats, n) <==> m in p.known || |p.known + Senders(beats[..n])| < CFM_MAX_RMPS)
  {
    SendersSplit(beats);
    hide Senders, Hear;
  }

  /** One CCM more, when `q` has taken in `taken` of the senders so far. */
  lemma HearExact(p: Peers, q: Peers, taken: set<nat>, senders: set<nat>, m: nat, opdown: bool)
    requires q.known == p.known + taken && q.heard == p.heard + taken && |q.known| <= CFM_MAX_RMPS
    requires |p.known + senders| <= CFM_MAX_RMPS ==> q.known == p.known + senders
    requires |p.known + senders| >= CFM_MAX_RMPS ==> |q.known| == CFM_MAX_RMPS
    ensures var now := taken + if m in p.known || |p.known + senders| < CFM_MAX_RMPS then {m} else {};
            Hear(q, m, opdown).known == p.known + now && Hear(q, m, opdown).heard == p.heard + now
  {
    if m in p.known || |p.known + senders| < CFM_MAX_RMPS {
      assert m in q.known || |q.known| < CFM_MAX_RMPS;
    } else if m in q.known {
      assert q.known + {m} == q.known && q.heard + {m} == q.heard && taken + {} == taken;
    } else {
      assert taken + {} == taken;
    }
  }

  /** Once the senders fill the table, it is full. */
  lemma HearFills(p: Peers, q: Peers, senders: set<nat>, m: nat, opdown: bool)
    requires |q.known| <= CFM_MAX_RMPS
    requires |p.known + senders| <= CFM_MAX_RMPS ==> q.known == p.known + senders
    requires |p.known + senders| >= CFM_MAX_RMPS ==> |q.known| == CFM_MAX_RMPS
    requires |p.known + senders + {m}| >= CFM_MAX_RMPS
    ensures |Hear(q, m, opdown).known| == CFM_MAX_RMPS
  {
    if |p.known + senders| < CFM_MAX_RMPS {
      assert q.known + {m} == p.known + senders + {m};
    } else if m in q.known {
      assert q.known + {m} == q.known;
    }
  }

  lemma NoneTaken(known: set<nat>)
    ensures TakenIn(known, []) == {} && Senders([]) == {}
  {}

  lemma SendersSplit(events: seq<Event>)
    requires events != []
    ensures var n := |events| - 1;
            Senders(events) == Senders(events[..n]) + if events[n].Heartbeat? then {events[n].mpid} else {}
  {
    var n := |events| - 1;
    forall m | m in Senders(events[..n]) ensures m in Senders(events) {
      var i :| 0 <= i < n && events[..n][i].Heartbeat? && events[..n][i].mpid == m;
      assert events[i].Heartbeat? && events[i].mpid == m;
    }
    forall m | m in Senders(events)
      ensures m in Senders(events[..n]) || (events[n].Heartbeat? && m == events[n].mpid)
    {
      var i :| 0 <= i < |events| && events[i].Heartbeat? && events[i].mpid == m;
      assert i < n ==> events[..n][i].Heartbeat? && events[..n][i].mpid == m;
    }
  }

  lemma {:induction false} AfterConcat(p: Peers, a: seq<Event>, b: seq<Event>)
    ensures After(p, a + b) == After(After(p, a), b)
    decreases |b|
  {
    if b == [] {
      assert a + b == a;
    } else {
      var n := |b| - 1;
      assert (a + b)[..|a| + n] == a + b[..n];
      AfterConcat(p, a, b[..n]);
    }
  }

  /** Whatever came before, after two checks with heartbeats in between the table
   * holds exactly the MPIDs taken in between them; as long as the peers known at
   * the first check and the senders since fit into the table, those are all the
   * senders.  So a silent peer survives one check and is gone after the next. */
  lemma TableAfterChecks(p: Peers, events: seq<Event>, beats: seq<Event>)
    requires |p.known| <= CFM_MAX_RMPS && p.heard <= p.known && OnlyHeartbeats(beats)
    ensures var first := After(p, events + [FaultCheck]);
            var second := After(p, events + [FaultCheck] + beats + [FaultCheck]);
            && second.known == TakenIn(first.known, beats) <= Senders(beats) && second.heard == {}
            && (|first.known + Senders(beats)| <= CFM_MAX_RMPS ==> second.known == Senders(beats))
            && (forall m | m in After(p, events).heard :: m in first.known)
            && (forall m | m in first.known && m !in Senders(beats) :: m !in second.known)
  {
    var first := After(p, events + [FaultCheck]);
    AfterCheck(p, events);
    AfterConcat(p, events + [FaultCheck], beats);
    AfterCheck(p, events + [FaultCheck] + beats);
    TableBounded(p, events + [FaultCheck]);
    Listening(first, beats);
    ListeningExact(first, beats);
    hide After, TakenIn, Senders;
  }

  lemma AfterCheck(p: Peers, events: seq<Event>)
    ensures After(p, events + [FaultCheck]) == Check(After(p, events))
  {
    assert (events + [FaultCheck])[..|events|] == events;
  }

  /** The last heartbeat of a maintenance point, or -1. */
  ghost function LastOf(events: seq<Event>, m: nat): (i: int)
    ensures -1 <= i < |events| && (i >= 0 ==> events[i].Heartbeat? && events[i].mpid == m)
    ensures forall j | i < j < |events| :: !(events[j].Heartbeat? && events[j].mpid == m)
  {
    if events == [] then -1
    else
      var n := |events| - 1;
      if events[n].Heartbeat? && events[n].mpid == m then n else LastOf(events[..n], m)
  }

  /** In every run from an empty table, a maintenance point that is known is taken to be down
   * exactly if its last CCM said so. */
  lemma {:induction false} DownByLast(events: seq<Event>, m: nat)
    requires m in After(NO_PEERS, events).known
    ensures LastOf(events, m) >= 0
    ensures m in After(NO_PEERS, events).down <==> events[LastOf(events, m)].opdown
    decreases |events|
  {
    var n := |events| - 1;
    var before := After(NO_PEERS, events[..n]);
    TableBounded(NO_PEERS, events[..n]);
    if m in before.known {
      DownByLast(events[..n], m);
    }
  }

  /** So a check finds the remote end down exactly if some peer that it keeps said so in its last CCM. */
  lemma DownAfterCheck(events: seq<Event>)
    ensures var p := After(NO_PEERS, events + [FaultCheck]);
            p.down != {} <==> exists m :: m in p.known && LastOf(events, m) >= 0 && events[LastOf(events, m)].opdown
  {
    var p, q := After(NO_PEERS, events), After(NO_PEERS, events + [FaultCheck]);
    AfterCheck(NO_PEERS, events);
    TableBounded(NO_PEERS, events);
    if m :| m in q.down {
      DownByLast(events, m);
    }
    if m :| m in q.known && LastOf(events, m) >= 0 && events[LastOf(events, m)].opdown {
      DownByLast(events, m);
      assert m in q.down;
    }
  }
}
