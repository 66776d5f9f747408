/** The action interpreter of the datapath (ovs/datapath/actions.c).
 *
 * do_execute_actions holds an output back until the next action or the end of
 * the list, to save a copy of the packet.  It is proved against an interpreter
 * that sends a copy at each output action.
 */
module Actions {
  import opened Options
  import opened MachineInts

  /** A tag out of band: bit VLAN_TAG_PRESENT of its field says that there is one. */
  type Tag = t: U16 | t / VLAN_TAG_PRESENT % 2 == 0

  const DP_MAX_PORTS := 0xffff
  const VLAN_TAG_PRESENT := 0x1000
  const VLAN_ETH_HLEN := 18

  /** A packet: the out-of-band VLAN tag, the VLAN headers in the frame from the
   * outside in, the length of the frame, and all else. */
  datatype Packet = Packet(tag: Option<Tag>, vlans: seq<U16>, len: nat, rest: nat)

  datatype Action =
    | Output(port: U32)
    | Userspace(info: nat)
    | PushVlan(tci: U16)
    | PopVlan
    | Set(edit: nat)
    | Sample(attrs: seq<SampleAttr>)

  datatype SampleAttr = Probability(p: U32) | Acts(actions: seq<Action>)

  datatype Event = Sent(port: U16, packet: Packet) | Upcall(info: nat, packet: Packet)

  /** What the run depends on: the ports there are, the random numbers drawn, and
   * the edits, any of which may fail on some packets. */
  datatype Env = Env(ports: set<nat>, random: nat -> U32, edit: (nat, Packet) -> Option<Packet>)
  {
    /** Port numbers are below DP_MAX_PORTS. */
    predicate Valid() { forall p | p in ports :: p < DP_MAX_PORTS }
  }

  /** A packet under way: what was emitted so far and how many random numbers were drawn. */
  datatype State = State(packet: Packet, events: seq<Event>, draws: nat)

  // ---------------------------------------------------------------------
  // Edits of VLAN headers

  /** What is left of a TCI in the out-of-band field. */
  function Tci(tag: U16): (t: Tag)
    ensures t == tag <==> tag / VLAN_TAG_PRESENT % 2 == 0
    ensures t % 0x1000 == tag % 0x1000 && t / 0x2000 == tag / 0x2000
  {
    if tag / VLAN_TAG_PRESENT % 2 == 1 then tag - VLAN_TAG_PRESENT else tag
  }

  /** push_vlan: a tag that is there already goes into the frame. */
  function PushTag(p: Packet, tci: U16): Packet {
    var pushed := if p.tag.Some? then p.(vlans := [p.tag.value] + p.vlans, len := p.len + 4) else p;
    pushed.(tag := Some(Tci(tci)))
  }

  predicate HasHeader(p: Packet) {
    p.vlans != [] && p.len >= VLAN_ETH_HLEN
  }

  /** pop_vlan: drops the outermost tag, and moves the next one out of the frame. */
  function PopTag(p: Packet): Packet {
    if p.tag.None? && !HasHeader(p) then p
    else
      var popped := if p.tag.Some? then p.(tag := None) else p.(vlans := p.vlans[1..], len := p.len - 4);
      if HasHeader(popped) then
        popped.(tag := Some(Tci(popped.vlans[0])), vlans := popped.vlans[1..], len := popped.len - 4)
      else popped
  }

  /** The tags of a packet as they are on the wire. */
  function WireTags(p: Packet): seq<U16> {
    (if p.tag.Some? then [p.tag.value] else []) + p.vlans
  }

  /** Pushing puts one tag in front of those on the wire.  Popping it again leaves
   * the others as they were exactly when the next tag does not come out of the
   * frame with bit VLAN_TAG_PRESENT set, and gives the very same packet exactly
   * when no tag comes out of the frame. */
  lemma PopUndoesPush(p: Packet, tci: U16)
    requires p.len >= 14 && (p.vlans != [] ==> p.len >= VLAN_ETH_HLEN)
    ensures WireTags(PushTag(p, tci)) == [Tci(tci)] + WireTags(p)
    ensures WireTags(PopTag(PushTag(p, tci))) == WireTags(p) <==>
              p.tag.Some? || p.vlans == [] || p.vlans[0] / VLAN_TAG_PRESENT % 2 == 0
    ensures PopTag(PushTag(p, tci)) == p <==> p.tag.Some? || p.vlans == []
  {
    var pushed := PushTag(p, tci);
    var popped := PopTag(pushed);
    assert pushed.(tag := None).vlans == if p.tag.Some? then [p.tag.value] + p.vlans else p.vlans;
    if p.tag.None? && p.vlans != [] {
      assert WireTags(popped) == [Tci(p.vlans[0])] + p.vlans[1..];
      assert WireTags(p) == [p.vlans[0]] + p.vlans[1..];
      assert WireTags(popped)[0] == Tci(p.vlans[0]) && WireTags(p)[0] == p.vlans[0];
    }
  }

  /** Popping takes the outermost of the tags on the wire, wherever it is; the next one ends up out of band. */
  lemma PopTakesOuter(p: Packet)
    requires p.len >= 14 + 4 * |p.vlans|
    ensures WireTags(p) == [] ==> PopTag(p) == p
    ensures |WireTags(p)| == 1 ==> WireTags(PopTag(p)) == []
    ensures |WireTags(p)| >= 2 ==>
              WireTags(PopTag(p)) == [Tci(WireTags(p)[1])] + WireTags(p)[2..] && PopTag(p).tag.Some?
    ensures PopTag(p).rest == p.rest && PopTag(p).len - 4 * |PopTag(p).vlans| == p.len - 4 * |p.vlans|
  {
    if WireTags(p) != [] {
      var next := if p.tag.Some? then p.vlans else p.vlans[1..];
      assert WireTags(p)[1..] == next;
      assert next != [] ==> WireTags(p)[2..] == next[1..] && WireTags(p)[1] == next[0];
    }
  }

  /** A tag in the frame that has the bit set loses it. */
  lemma PopLosesBit(tci: U16)
    ensures WireTags(PopTag(PushTag(Packet(None, [0x1001], 64, 0), tci))) == [1]
  {
    var p := Packet(None, [0x1001], 64, 0);
    assert PopTag(PushTag(p, tci)) == Packet(Some(1), [], 60, 0);
  }

  // ---------------------------------------------------------------------
  // The plain interpreter

  /** do_output: the port number is cut to 16 bits, and a missing port drops the packet. */
  function Deliver(env: Env, port: int, packet: Packet): seq<Event> {
    if port % 0x1_0000 in env.ports then [Sent(port % 0x1_0000, packet)] else []
  }

  /** The number of draws a sample makes: up to the first one that its probability does not meet. */
  function Draws(env: Env, attrs: seq<SampleAttr>, drawn: nat): (r: (nat, bool))
  {
    if attrs == [] then (drawn, true)
    else if attrs[0].Acts? then Draws(env, attrs[1..], drawn)
    else if env.random(drawn) >= attrs[0].p then (drawn + 1, false)
    else Draws(env, attrs[1..], drawn + 1)
  }

  /** The last list of actions given to a sample, or -1. */
  function LastActs(attrs: seq<SampleAttr>): (i: int)
    ensures -1 <= i < |attrs| && (i >= 0 ==> attrs[i].Acts?) && forall j | i < j < |attrs| :: !attrs[j].Acts?
  {
    if attrs == [] then -1
    else if attrs[|attrs| - 1].Acts? then |attrs| - 1
    else LastActs(attrs[..|attrs| - 1])
  }

  /** Sends a copy of the packet at each output action. */
  function Exec(env: Env, a: Action, st: State): (State, bool)
    decreases a, 0
  {
    match a
    case Output(port) => (st.(events := st.events + Deliver(env, port, st.packet)), true)
    case Userspace(info) => (st.(events := st.events + [Upcall(info, st.packet)]), true)
    case PushVlan(tci) => (st.(packet := PushTag(st.packet, tci)), true)
    case PopVlan => (st.(packet := PopTag(st.packet)), true)
    case Set(edit) =>
      (match env.edit(edit, st.packet)
       case Some(p) => (st.(packet := p), true)
       case None => (st, false))
    case Sample(attrs) =>
      var (drawn, go) := Draws(env, attrs, st.draws);
      var i := LastActs(attrs);
      if !go || i == -1 then (st.(draws := drawn), true)
      else ExecAll(env, attrs[i].actions, st.(draws := drawn))
  }

  function ExecAll(env: Env, acts: seq<Action>, st: State): (State, bool)
    decreases acts, 1
  {
    if acts == [] then (st, true)
    else
      var (next, ok) := Exec(env, acts[0], st);
      if !ok then (next, false) else ExecAll(env, acts[1..], next)
  }

  /** The probabilities given to a sample. */
  function Odds(attrs: seq<SampleAttr>): seq<U32> {
    if attrs == [] then []
    else (if attrs[0].Probability? then [attrs[0].p] else []) + Odds(attrs[1..])
  }

  /** The numbers drawn from `drawn` on are below the probabilities, one by one. */
  ghost predicate Below(env: Env, odds: seq<U32>, drawn: nat) {
    forall i | 0 <= i < |odds| :: env.random(drawn + i) < odds[i]
  }

  lemma BelowStep(env: Env, p: U32, rest: seq<U32>, drawn: nat)
    ensures Below(env, [p] + rest, drawn) <==> env.random(drawn) < p && Below(env, rest, drawn + 1)
  {
    var odds := [p] + rest;
    if Below(env, odds, drawn) {
      assert env.random(drawn + 0) < odds[0];
      forall i | 0 <= i < |rest| ensures env.random(drawn + 1 + i) < rest[i] {
        assert env.random(drawn + (i + 1)) < odds[i + 1];
      }
    } else if env.random(drawn) < p {
      var i :| 0 <= i < |odds| && env.random(drawn + i) >= odds[i];
      assert env.random(drawn + 1 + (i - 1)) >= rest[i - 1];
    }
  }

  /** The draws go on to `d` because all numbers are below, or up to the first one that is not. */
  ghost predicate DrawnTo(env: Env, odds: seq<U32>, drawn: nat, d: nat, go: bool) {
    && (go <==> Below(env, odds, drawn))
    && (go ==> d == drawn + |odds|)
    && (!go ==> && drawn < d <= drawn + |odds| && env.random(d - 1) >= odds[d - 1 - drawn]
                && Below(env, odds[..d - 1 - drawn], drawn))
  }

  lemma NoneDrawn(env: Env, drawn: nat)
    ensures DrawnTo(env, [], drawn, drawn, true)
  {}

  lemma DrawnAbove(env: Env, p: U32, rest: seq<U32>, drawn: nat)
    requires env.random(drawn) >= p
    ensures DrawnTo(env, [p] + rest, drawn, drawn + 1, false)
  {
    BelowStep(env, p, rest, drawn);
    assert ([p] + rest)[..0] == [] && Below(env, [], drawn);
  }

  lemma DrawnBelow(env: Env, p: U32, rest: seq<U32>, drawn: nat, d: nat, go: bool)
    requires env.random(drawn) < p && DrawnTo(env, rest, drawn + 1, d, go)
    ensures DrawnTo(env, [p] + rest, drawn, d, go)
  {
    hide Below;
    BelowStep(env, p, rest, drawn);
    if !go {
      var n := d - 1 - drawn;
      assert ([p] + rest)[..n] == [p] + rest[..n - 1];
      BelowStep(env, p, rest[..n - 1], drawn);
    }
  }

  /** A sample goes ahead exactly if each number it draws is below the probability in turn. */
  lemma {:induction false} DrawsAgainstOdds(env: Env, attrs: seq<SampleAttr>, drawn: nat)
    ensures DrawnTo(env, Odds(attrs), drawn, Draws(env, attrs, drawn).0, Draws(env, attrs, drawn).1)
  {
    hide DrawnTo;
    if attrs == [] {
      NoneDrawn(env, drawn);
    } else if attrs[0].Acts? {
      DrawsAgainstOdds(env, attrs[1..], drawn);
      assert Odds(attrs) == Odds(attrs[1..]);
    } else {
      var p, rest := attrs[0].p, Odds(attrs[1..]);
      if env.random(drawn) < p {
        DrawsAgainstOdds(env, attrs[1..], drawn + 1);
        var (d, go) := Draws(env, attrs, drawn);
        DrawnBelow(env, p, rest, drawn, d, go);
      } else {
        DrawnAbove(env, p, rest, drawn);
      }
    }
  }

  /** What a sample does: nothing, or its last list of actions. */
  lemma SampleRuns(env: Env, attrs: seq<SampleAttr>, i: nat, st: State)
    requires i < |attrs| && attrs[i].Acts? && forall j | i < j < |attrs| :: !attrs[j].Acts?
    ensures var (next, ok) := Exec(env, Sample(attrs), st);
            if Below(env, Odds(attrs), st.draws)
            then (next, ok) == ExecAll(env, attrs[i].actions, st.(draws := st.draws + |Odds(attrs)|))
            else next == st.(draws := next.draws) && ok
  {
    hide Below, ExecAll;
    DrawsAgainstOdds(env, attrs, st.draws);
    assert LastActs(attrs) == i;
  }

  /** Executing two lists in turn; an error in the first keeps the second from running. */
  lemma {:induction false} ExecAllConcat(env: Env, a: seq<Action>, b: seq<Action>, st: State)
    ensures ExecAll(env, a + b, st) ==
            var (next, ok) := ExecAll(env, a, st); if ok then ExecAll(env, b, next) else (next, false)
    decreases |a|
  {
    if a == [] {
      assert a + b == b;
    } else {
      assert (a + b)[1..] == a[1..] + b;
      ExecAllConcat(env, a[1..], b, Exec(env, a[0], st).0);
    }
  }

  /** An action only adds to what was sent, and what it adds and does to the packet does not depend on that. */
  lemma {:induction false} ExecAdds(env: Env, a: Action, st: State, before: seq<Event>)
    ensures var (next, ok) := Exec(env, a, st);
            Exec(env, a, st.(events := before + st.events)) == (next.(events := before + next.events), ok)
    decreases a, 0
  {
    match a {
      case Output(port) =>
        assert before + (st.events + Deliver(env, port, st.packet)) ==
               before + st.events + Deliver(env, port, st.packet);
      case Userspace(info) =>
        assert before + (st.events + [Upcall(info, st.packet)]) == before + st.events + [Upcall(info, st.packet)];
      case Sample(attrs) =>
        var (drawn, go) := Draws(env, attrs, st.draws);
        var i := LastActs(attrs);
        if go && i != -1 {
          ExecAllAdds(env, attrs[i].actions, st.(draws := drawn), before);
        }
      case _ =>
    }
  }

  lemma {:induction false} ExecAllAdds(env: Env, acts: seq<Action>, st: State, before: seq<Event>)
    ensures var (next, ok) := ExecAll(env, acts, st);
            ExecAll(env, acts, st.(events := before + st.events)) == (next.(events := before + next.events), ok)
    decreases acts, 1
  {
    if acts != [] {
      ExecAdds(env, acts[0], st, before);
      ExecAllAdds(env, acts[1..], Exec(env, acts[0], st).0, before);
    }
  }

  /** After an edit that fails nothing more is done. */
  lemma EditFails(env: Env, a: seq<Action>, edit: nat, b: seq<Action>, st: State)
    requires ExecAll(env, a, st).1 && env.edit(edit, ExecAll(env, a, st).0.packet).None?
    ensures ExecAll(env, a + [Set(edit)] + b, st) == (ExecAll(env, a, st).0, false)
  {
    ExecAllConcat(env, a + [Set(edit)], b, st);
    ExecAllConcat(env, a, [Set(edit)], st);
  }

  /** Reading a port number as a signed int keeps the port it names; the number
   * that reads as -1 names none. */
  lemma SamePort(env: Env, port: U32, signed: int, packet: Packet)
    requires env.Valid() && signed == if port < 0x8000_0000 then port else port - 0x1_0000_0000
    ensures Deliver(env, signed, packet) == Deliver(env, port, packet)
    ensures signed == -1 ==> Deliver(env, port, packet) == []
  {}

  // ---------------------------------------------------------------------
  // do_execute_actions

  class Datapath {
    const env: Env
    var packet: Packet
    var events: seq<Event>
    var draws: nat

    function Value(): State
      reads this
    {
      State(packet, events, draws)
    }

    constructor (env: Env, packet: Packet)
      ensures this.env == env && Value() == State(packet, [], 0)
    {
      this.env, this.packet, this.events, this.draws := env, packet, [], 0;
    }

    /** do_output. */
    method DoOutput(port: int)
      modifies this`events
      ensures events == old(events) + Deliver(env, port, packet)
    {
      if port % 0x1_0000 in env.ports {
        events := events + [Sent(port % 0x1_0000, packet)];
      }
    }

    /** sample(). */
    method DoSample(attrs: seq<SampleAttr>) returns (ok: bool)
      requires env.Valid()
      modifies this
      ensures (Value(), ok) == Exec(env, Sample(attrs), old(Value()))
      decreases attrs
    {
      var acts, i := -1, 0;
      assert attrs[0..] == attrs;
      while i < |attrs|
        invariant 0 <= i <= |attrs| && acts == LastActs(attrs[..i])
        invariant packet == old(packet) && events == old(events)
        invariant Draws(env, attrs[i..], draws) == Draws(env, attrs, old(draws))
      {
        assert attrs[..i + 1][..i] == attrs[..i];
        assert attrs[i..][1..] == attrs[i + 1..];
        match attrs[i] {
          case Probability(p) =>
            var r := env.random(draws);
            draws := draws + 1;
            if r >= p {
              return true;
            }
          case Acts(_) =>
            acts := i;
        }
        i := i + 1;
      }
      assert attrs[..i] == attrs;
      if acts == -1 {
        return true;
      }
      ok := DoExecuteActions(attrs[acts].actions);
    }

    /** do_execute_actions: an output is held back in `prevPort`, where -1 means none. */
    method DoExecuteActions(acts: seq<Action>) returns (ok: bool)
      requires env.Valid()
      modifies this
      ensures (Value(), ok) == ExecAll(env, acts, old(Value()))
      decreases acts
    {
      var prevPort: int := -1;
      var i := 0;
      assert acts[0..] == acts;
      while i < |acts|
        invariant 0 <= i <= |acts|
        invariant ExecAll(env, acts[i..], Flushed(prevPort)) == ExecAll(env, acts, old(Value()))
      {
        assert acts[i..][1..] == acts[i + 1..];
        if prevPort != -1 {
          DoOutput(prevPort);
          prevPort := -1;
        }
        match acts[i] {
          case Output(port) =>
            // the 32-bit port number as an int
            prevPort := if port < 0x8000_0000 then port else port - 0x1_0000_0000;
            SamePort(env, port, prevPort, packet);
            assert events + [] == events;
          case Userspace(info) =>
            events := events + [Upcall(info, packet)];
          case PushVlan(tci) =>
            packet := PushTag(packet, tci);
          case PopVlan =>
            packet := PopTag(packet);
          case Set(edit) =>
            var edited := env.edit(edit, packet);
            if edited.None? {
              return false;
            }
            packet := edited.value;
          case Sample(attrs) =>
            ok := DoSample(attrs);
            if !ok {
              return;
            }
        }
        i := i + 1;
      }
      if prevPort != -1 {
        DoOutput(prevPort);
      }
      return true;
    }

    /** The state in which the output that is held back has been sent. */
    ghost function Flushed(prevPort: int): State
      reads this
    {
      if prevPort == -1 then Value() else Value().(events := events + Deliver(env, prevPort, packet))
    }
  }
}
