/** Reading a flow key from attributes (ovs/datapath/flow.c).
 *
 * `a` holds the attributes not yet consumed: the array of the source together
 * with its bit mask.
 */
module FlowParse {
  import opened Options
  import opened MachineInts
  import opened FlowKey
  import opened FlowSpan

  datatype Parsed = Parsed(key: Key, span: Span) | Invalid

  /** parse_flow_nlattrs. */
  method ParseTable(n: Nest) returns (r: Option<Table>)
    ensures r == NestTable(n)
  {
    var a: Table := map[];
    for i := 0 to |n.attrs|
      invariant TableOf(n.attrs[..i]) == Some(a)
    {
      var x := n.attrs[i];
      assert n.attrs[..i + 1][..i] == n.attrs[..i];
      if x.Bad? || KindOf(x) in a {
        StaysInvalid(n.attrs, i + 1);
        return None;
      }
      a := a[KindOf(x) := x];
    }
    assert n.attrs[..|n.attrs|] == n.attrs;
    r := if n.rem != 0 then None else Some(a);
  }

  lemma {:induction false} StaysInvalid(s: seq<Attr>, i: nat)
    requires i <= |s| && TableOf(s[..i]).None?
    ensures TableOf(s).None?
  {
    if i == |s| {
      assert s[..i] == s;
    } else {
      assert s[..|s| - 1][..i] == s[..i];
      StaysInvalid(s[..|s| - 1], i);
    }
  }

  /** ipv4_tun_from_nlattr. */
  method ParseTunnel(n: TunNest) returns (r: Option<Tun>)
    ensures r.Some? ==> TunnelMeans(n, r.value)
    ensures r.None? ==> forall t :: !TunnelMeans(n, t)
  {
    var t := NO_TUN;
    var ttl := false;
    for i := 0 to |n.attrs|
      invariant BadTun !in n.attrs[..i]
      invariant TunFields(n.attrs[..i], t) && ttl == Last(n.attrs[..i], TunTtl).Some?
    {
      var x := n.attrs[i];
      assert n.attrs[..i + 1][..i] == n.attrs[..i];
      if x.BadTun? {
        return None;
      }
      match x.kind {
        case TunId => t := t.(id := x.value, hasKey := true);
        case TunSrc => t := t.(src := x.value);
        case TunDst => t := t.(dst := x.value);
        case TunTos => t := t.(tos := x.value);
        case TunTtl => t := t.(ttl := x.value); ttl := true;
        case TunDontFragment => t := t.(dontFragment := true);
        case TunCsum => t := t.(csum := true);
      }
    }
    assert n.attrs[..|n.attrs|] == n.attrs;
    if n.rem > 0 || t.dst == 0 || !ttl {
      return None;
    }
    r := Some(t);
  }

  /** The tunnel part of ovs_flow_from_nlattrs. */
  method ParseTunnelPart(a0: Table) returns (ok: bool, tun: Tun, a: Table)
    requires Typed(a0)
    ensures ok ==> a == a0 - (if KTunnel in a0 then {KTunnel, KTunnelId} else {})
    ensures ok && KTunnelId !in a ==> TunMeans(a0, tun)
    ensures !ok || KTunnelId in a ==> forall t :: !TunMeans(a0, t)
  {
    hide TunnelMeans;
    ok, tun, a := false, NO_TUN, a0;
    if KTunnelId in a && KTunnel in a {
      var t := ParseTunnel(a[KTunnel].tunnel);
      if t.None? {
        return;
      }
      tun := t.value;
      TunnelUnique(a[KTunnel].tunnel, tun);
      if !tun.hasKey || a[KTunnelId].id != tun.id {
        return;
      }
      a := a - {KTunnelId};
      a := a - {KTunnel};
    } else if KTunnel in a {
      var t := ParseTunnel(a[KTunnel].tunnel);
      if t.None? {
        return;
      }
      tun := t.value;
      a := a - {KTunnel};
    }
    ok := true;
  }

  /** The metadata part of ovs_flow_from_nlattrs. */
  method ParseMeta(a0: Table) returns (ok: bool, tun: Tun, priority: nat, mark: nat, inPort: U16, a: Table)
    requires Typed(a0)
    ensures ok ==> a == a0 - (if KTunnel in a0 then META else META - {KTunnelId})
    ensures ok && KTunnelId !in a ==> MetaMeans(a0, tun, priority, mark, inPort)
    ensures !ok || KTunnelId in a ==> forall t, p, m, i :: !MetaMeans(a0, t, p, m, i)
  {
    hide TunMeans;
    ok, tun, priority, mark, inPort, a := false, NO_TUN, 0, 0, 0, a0;
    if KPriority in a {
      priority := a[KPriority].value;
      a := a - {KPriority};
    }
    if KInPort in a {
      if a[KInPort].port >= DP_MAX_PORTS {
        return;
      }
      inPort := a[KInPort].port;
      a := a - {KInPort};
    } else {
      inPort := DP_MAX_PORTS;
    }
    if KSkbMark in a {
      mark := a[KSkbMark].mark;
      a := a - {KSkbMark};
    }
    assert a == a0 - {KPriority, KInPort, KSkbMark};
    SameTunnel(a0, a);
    ok, tun, a := ParseTunnelPart(a);
  }

  lemma SameTunnel(a: Table, b: Table)
    requires Typed(a) && b == a - {KPriority, KInPort, KSkbMark}
    ensures forall t :: TunMeans(a, t) <==> TunMeans(b, t)
  {
    hide TunnelMeans;
  }

  lemma TunnelUnique(n: TunNest, t: Tun)
    requires TunnelMeans(n, t)
    ensures forall u | TunnelMeans(n, u) :: u == t
  {}

  /** ipv4_flow_from_nlattrs. */
  method ParseV4Ports(ip: Ip, a0: Table, span0: Span) returns (ok: bool, tp: Ports, span: Span, a: Table)
    requires Typed(a0) && ip.frag != FRAG_LATER
    ensures ok && a == map[] ==> V4PortsOk(ip, tp) && a0 == V4PortAttrs(ip, tp)
    ensures ok && a == map[] ==> span == if ip.proto in {TCP, UDP, ICMP} then ThroughV4Ports else span0
    ensures !ok || a != map[] ==> forall p | V4PortsOk(ip, p) :: a0 != V4PortAttrs(ip, p)
  {
    ok, tp, span, a := false, NO_PORTS, span0, a0;
    if ip.proto == TCP {
      if KTcp !in a {
        return;
      }
      a := a - {KTcp};
      span := ThroughV4Ports;
      tp := a0[KTcp].ports;
      OneLeft(a0, KTcp);
    } else if ip.proto == UDP {
      if KUdp !in a {
        return;
      }
      a := a - {KUdp};
      span := ThroughV4Ports;
      tp := a0[KUdp].ports;
      OneLeft(a0, KUdp);
    } else if ip.proto == ICMP {
      if KIcmp !in a {
        return;
      }
      a := a - {KIcmp};
      span := ThroughV4Ports;
      tp := Ports(a0[KIcmp].icmpType, a0[KIcmp].icmpCode);
      OneLeft(a0, KIcmp);
    }
    ok := true;
  }

  lemma OneLeft(a: Table, k: Kind)
    requires k in a
    ensures a - {k} == map[] <==> a == map[k := a[k]]
  {
    assert a - {k} == map[] ==> forall x | x in a :: x in a - {k} || x == k;
  }

  lemma TwoLeft(a: Table, k: Kind, l: Kind)
    requires k in a && l in a && k != l
    ensures a - {k} - {l} == map[] <==> a == map[k := a[k]] + map[l := a[l]]
  {
    assert a - {k} - {l} == map[] ==> forall x | x in a :: x in a - {k} - {l} || x == k || x == l;
  }

  /** ipv6_flow_from_nlattrs. */
  method ParseV6Ports(ip: Ip, a0: Table, span0: Span) returns (ok: bool, tp: Ports, nd: Nd, span: Span, a: Table)
    requires Typed(a0) && ip.frag != FRAG_LATER
    ensures ok && a == map[] ==> V6PortsOk(ip, tp, nd) && a0 == V6PortAttrs(ip, tp, nd)
    ensures ok && a == map[] ==>
      span == if ip.proto !in {TCP, UDP, ICMPV6} then span0
              else if ip.proto == ICMPV6 && IsNd(tp.src) then ThroughNd else ThroughV6Ports
    ensures !ok || a != map[] ==> forall p, d | V6PortsOk(ip, p, d) :: a0 != V6PortAttrs(ip, p, d)
  {
    ok, tp, nd, span, a := false, NO_PORTS, NO_ND, span0, a0;
    if ip.proto == TCP {
      if KTcp !in a {
        return;
      }
      a := a - {KTcp};
      span := ThroughV6Ports;
      tp := a0[KTcp].ports;
      OneLeft(a0, KTcp);
    } else if ip.proto == UDP {
      if KUdp !in a {
        return;
      }
      a := a - {KUdp};
      span := ThroughV6Ports;
      tp := a0[KUdp].ports;
      OneLeft(a0, KUdp);
    } else if ip.proto == ICMPV6 {
      if KIcmpv6 !in a {
        return;
      }
      a := a - {KIcmpv6};
      span := ThroughV6Ports;
      tp := Ports(a0[KIcmpv6].icmpType, a0[KIcmpv6].icmpCode);
      OneLeft(a0, KIcmpv6);
      if tp.src == NEIGHBOUR_SOLICITATION || tp.src == NEIGHBOUR_ADVERTISEMENT {
        if KNd !in a {
          return;
        }
        a := a - {KNd};
        span := ThroughNd;
        nd := a0[KNd].nd;
        TwoLeft(a0, KIcmpv6, KNd);
      }
    }
    ok := true;
  }

  lemma Split(a: Table, k: Kind, x: Attr, rest: Table)
    requires k !in rest
    ensures a == map[k := x] + rest <==> k in a && a[k] == x && a - {k} == rest
  {
    if k in a && a[k] == x && a - {k} == rest {
      assert forall l | l in a :: l == k || l in a - {k};
      assert forall l | l in rest :: l in a - {k};
      assert a.Keys == (map[k := x] + rest).Keys;
    }
  }

  /** The IPv4 part of ovs_flow_from_nlattrs. */
  method ParseV4(a0: Table) returns (ok: bool, net: Net, span: Span, a: Table)
    requires Typed(a0)
    ensures ok && a == map[] ==> NetOk(ETH_P_IP, net) && a0 == NetAttrs(ETH_P_IP, net) && span == KeySpan(ETH_P_IP, net)
    ensures !ok || a != map[] ==> forall n | NetOk(ETH_P_IP, n) :: a0 != NetAttrs(ETH_P_IP, n)
  {
    hide V4PortAttrs;
    forall n
      ensures a0 == NetAttrs(ETH_P_IP, n) <==>
        (KIpv4 in a0 && a0[KIpv4] == Ipv4(n.v4.src, n.v4.dst, n.ip) && a0 - {KIpv4} == V4PortAttrs(n.ip, n.v4.tp))
    {
      V4PortKinds(n.ip, n.v4.tp);
      Split(a0, KIpv4, Ipv4(n.v4.src, n.v4.dst, n.ip), V4PortAttrs(n.ip, n.v4.tp));
    }
    ok, net, span, a := false, NO_NET, ThroughV4Addr, a0;
    if KIpv4 !in a {
      return;
    }
    a := a - {KIpv4};
    var x := a0[KIpv4];
    if x.ip.frag > FRAG_LATER {
      return;
    }
    net := net.(ip := x.ip, v4 := NO_V4.(src := x.v4src, dst := x.v4dst));
    if net.ip.frag != FRAG_LATER {
      var tp;
      ok, tp, span, a := ParseV4Ports(net.ip, a, span);
      net := net.(v4 := net.v4.(tp := tp));
      if !ok {
        return;
      }
    } else {
      LaterHasNoPorts(net.ip);
    }
    ok := true;
  }

  lemma V4PortKinds(ip: Ip, tp: Ports)
    ensures KIpv4 !in V4PortAttrs(ip, tp)
  {}

  lemma LaterHasNoPorts(ip: Ip)
    requires ip.frag == FRAG_LATER
    ensures forall tp :: V4PortAttrs(ip, tp) == map[]
    ensures forall tp, nd :: V6PortAttrs(ip, tp, nd) == map[]
  {}

  /** The IPv6 part of ovs_flow_from_nlattrs. */
  method ParseV6(a0: Table) returns (ok: bool, net: Net, span: Span, a: Table)
    requires Typed(a0)
    ensures ok && a == map[] ==> NetOk(ETH_P_IPV6, net) && a0 == NetAttrs(ETH_P_IPV6, net)
    ensures ok && a == map[] ==> span == KeySpan(ETH_P_IPV6, net)
    ensures !ok || a != map[] ==> forall n | NetOk(ETH_P_IPV6, n) :: a0 != NetAttrs(ETH_P_IPV6, n)
  {
    hide V6PortAttrs;
    forall n
      ensures a0 == NetAttrs(ETH_P_IPV6, n) <==>
        (&& KIpv6 in a0 && a0[KIpv6] == Ipv6(n.v6.src, n.v6.dst, n.v6.flowLabel, n.ip)
         && a0 - {KIpv6} == V6PortAttrs(n.ip, n.v6.tp, n.v6.nd))
    {
      V6PortKinds(n.ip, n.v6.tp, n.v6.nd);
      Split(a0, KIpv6, Ipv6(n.v6.src, n.v6.dst, n.v6.flowLabel, n.ip), V6PortAttrs(n.ip, n.v6.tp, n.v6.nd));
    }
    ok, net, span, a := false, NO_NET, ThroughV6Label, a0;
    if KIpv6 !in a {
      return;
    }
    a := a - {KIpv6};
    var x := a0[KIpv6];
    if x.ip.frag > FRAG_LATER {
      return;
    }
    net := net.(ip := x.ip, v6 := NO_V6.(src := x.v6src, dst := x.v6dst, flowLabel := x.flowLabel));
    if net.ip.frag != FRAG_LATER {
      var tp, nd;
      ok, tp, nd, span, a := ParseV6Ports(net.ip, a, span);
      net := net.(v6 := net.v6.(tp := tp, nd := nd));
      if !ok {
        return;
      }
    } else {
      LaterHasNoPorts(net.ip);
    }
    ok := true;
  }

  lemma V6PortKinds(ip: Ip, tp: Ports, nd: Nd)
    ensures KIpv6 !in V6PortAttrs(ip, tp, nd)
  {}

  /** The ARP part of ovs_flow_from_nlattrs. */
  method ParseArp(etherType: U16, a0: Table) returns (ok: bool, net: Net, a: Table)
    requires Typed(a0) && (etherType == ETH_P_ARP || etherType == ETH_P_RARP)
    ensures ok && a == map[] ==> NetOk(etherType, net) && a0 == NetAttrs(etherType, net)
    ensures !ok || a != map[] ==> forall n | NetOk(etherType, n) :: a0 != NetAttrs(etherType, n)
  {
    ok, net, a := false, NO_NET, a0;
    if KArp !in a {
      return;
    }
    OneLeft(a0, KArp);
    a := a - {KArp};
    var x := a0[KArp];
    if x.op / 0x100 != 0 {
      return;
    }
    net := net.(ip := NO_IP.(proto := x.op), v4 := NO_V4.(src := x.sip, dst := x.tip, sha := x.sha, tha := x.tha));
    ok := true;
  }

  /** The network and transport part of ovs_flow_from_nlattrs. */
  method ParseNet(etherType: U16, a0: Table) returns (ok: bool, net: Net, span: Span, a: Table)
    requires Typed(a0)
    ensures ok && a == map[] ==> NetOk(etherType, net) && a0 == NetAttrs(etherType, net)
    ensures ok && a == map[] ==> span == KeySpan(etherType, net)
    ensures !ok || a != map[] ==> forall n | NetOk(etherType, n) :: a0 != NetAttrs(etherType, n)
  {
    hide NetAttrs, V4PortsOk, V6PortsOk;
    ok, net, span, a := true, NO_NET, ThroughEth, a0;
    if etherType == ETH_P_IP {
      ok, net, span, a := ParseV4(a);
    } else if etherType == ETH_P_IPV6 {
      ok, net, span, a := ParseV6(a);
    } else if etherType == ETH_P_ARP || etherType == ETH_P_RARP {
      span := ThroughArp;
      ok, net, a := ParseArp(etherType, a);
    } else {
      NoNetAttrs(etherType, net);
    }
  }

  /** ovs_flow_from_nlattrs from the Ethernet type on. */
  method ParseInner(a0: Table) returns (ok: bool, etherType: U16, net: Net, span: Span)
    requires Typed(a0)
    ensures ok ==> InnerOk(etherType, net) && a0 == InnerAttrs(etherType, net) && span == KeySpan(etherType, net)
    ensures !ok ==> forall e, n | InnerOk(e, n) :: a0 != InnerAttrs(e, n)
  {
    hide NetOk, NetAttrs, InnerAttrs, KeySpan;
    ok, etherType, net, span := false, ETH_P_802_2, NO_NET, ThroughEth;
    var a := a0;
    if KEtherType in a {
      etherType := a[KEtherType].etherType;
      if etherType < MIN_ETHERTYPE {
        InnerTypes(a0);
        return;
      }
      a := a - {KEtherType};
    }
    InnerSplit(a0, etherType);
    assert a == a0 - {KEtherType};
    ok, net, span, a := ParseNet(etherType, a);
    if a != map[] {
      ok := false;
    }
  }

  lemma InnerTypes(a: Table)
    requires Typed(a) && KEtherType in a
    ensures forall e, n | a == InnerAttrs(e, n) :: e == a[KEtherType].etherType && e != ETH_P_802_2
  {
    hide NetAttrs;
    forall e, n | a == InnerAttrs(e, n) ensures e == a[KEtherType].etherType && e != ETH_P_802_2 {
      NetKinds(e, n);
    }
  }

  lemma NoNetAttrs(etherType: U16, net: Net)
    requires etherType !in {ETH_P_IP, ETH_P_IPV6, ETH_P_ARP, ETH_P_RARP}
    ensures NetAttrs(etherType, net) == map[]
  {}

  /** Attributes mean a type and the fields that go with it exactly if, less their
   * Ethernet type, they mean the fields. */
  lemma InnerSplit(a: Table, etherType: U16)
    requires Typed(a)
    requires etherType == if KEtherType in a then a[KEtherType].etherType else ETH_P_802_2
    requires KEtherType in a ==> etherType >= MIN_ETHERTYPE
    ensures forall n :: a == InnerAttrs(etherType, n) <==> a - {KEtherType} == NetAttrs(etherType, n)
    ensures forall e, n | InnerOk(e, n) && a == InnerAttrs(e, n) :: e == etherType
  {
    hide NetAttrs;
    forall n ensures a == InnerAttrs(etherType, n) <==> a - {KEtherType} == NetAttrs(etherType, n) {
      NetKinds(etherType, n);
      if KEtherType in a {
        Split(a, KEtherType, EtherType(etherType), NetAttrs(etherType, n));
      } else {
        NoNetAttrs(etherType, n);
        assert a - {KEtherType} == a;
      }
    }
    forall e, n | InnerOk(e, n) && a == InnerAttrs(e, n) ensures e == etherType {
      NetKinds(e, n);
    }
  }

  lemma NetKinds(etherType: U16, net: Net)
    ensures KEtherType !in NetAttrs(etherType, net)
  {}

  ghost predicate TagOk(tci: U16) { tci == 0 || Tagged(tci) }

  /** ovs_flow_from_nlattrs from the VLAN tag on. */
  method ParseFrame(a0: Table) returns (ok: bool, tci: U16, etherType: U16, net: Net, span: Span)
    requires Typed(a0)
    ensures ok ==> TagOk(tci) && InnerOk(etherType, net) && FrameMeans(a0, tci, etherType, net)
    ensures ok ==> span == KeySpan(etherType, net)
    ensures !ok ==> forall t, e, n | TagOk(t) && InnerOk(e, n) :: !FrameMeans(a0, t, e, n)
  {
    hide NetAttrs, InnerAttrs, TableOf;
    ok, tci, etherType, net, span := false, 0, ETH_P_8021Q, NO_NET, ThroughEth;
    if KEtherType in a0 {
      InnerTypes(a0);
    }
    var a := a0;
    if KEtherType in a && a[KEtherType].etherType == ETH_P_8021Q {
      if a.Keys != {KVlan, KEtherType, KEncap} {
        return;
      }
      var encap := a[KEncap].nest;
      if Tagged(a[KVlan].tci) {
        tci := a[KVlan].tci;
        var t := ParseTable(encap);
        if t.None? {
          return;
        }
        a := t.value;
      } else if a[KVlan].tci == 0 {
        // a truncated tag
        ok := encap == Nest([], 0);
        return;
      } else {
        return;
      }
    } else {
      NotTagType(a0);
    }
    ok, etherType, net, span := ParseInner(a);
  }

  lemma NotTagType(a: Table)
    requires Typed(a) && (KEtherType in a ==> a[KEtherType].etherType != ETH_P_8021Q)
    ensures forall n :: a != InnerAttrs(ETH_P_8021Q, n)
  {
    hide NetAttrs;
    forall n ensures a != InnerAttrs(ETH_P_8021Q, n) {
      NetKinds(ETH_P_8021Q, n);
    }
  }

  /** ovs_flow_from_nlattrs: accepts exactly the trees that mean a key. */
  method FromAttrs(n: Nest) returns (r: Parsed)
    ensures r.Parsed? ==> WellFormed(r.key) && Means(n, r.key) && r.span == KeySpan(r.key.etherType, r.key.net)
    ensures r.Parsed? ==> Cut(r.key.net, r.span) == r.key.net
    ensures r.Invalid? ==> forall k | WellFormed(k) :: !Means(n, k)
  {
    hide MetaMeans, FrameMeans, KeySpan, TableOf, NetOk, Cut;
    r := Invalid;
    var t := ParseTable(n);
    if t.None? {
      return;
    }
    var ok, tun, priority, mark, inPort, a := ParseMeta(t.value);
    if !ok || KEthernet !in a {
      return;
    }
    var eth := a[KEthernet];
    a := a - {KEthernet};
    var tci, etherType, net, span;
    ok, tci, etherType, net, span := ParseFrame(a);
    FrameKinds(a);
    assert KTunnelId !in a ==> a == t.value - META - {KEthernet};
    if ok {
      MetaTun(t.value, tun, priority, mark, inPort);
      NothingBeyond(etherType, net);
      r := Parsed(Key(tun, priority, mark, inPort, eth.src, eth.dst, tci, etherType, net), span);
    }
  }

  lemma MetaTun(a: Table, tun: Tun, priority: nat, mark: nat, inPort: U16)
    requires Typed(a) && MetaMeans(a, tun, priority, mark, inPort)
    ensures TunOk(tun)
  {}

  lemma FrameKinds(a: Table)
    requires Typed(a)
    ensures forall t, e, n | FrameMeans(a, t, e, n) :: KTunnelId !in a
  {
    forall t, e, n | FrameMeans(a, t, e, n) ensures KTunnelId !in a {
      InnerKinds(e, n);
    }
  }

  lemma InnerKinds(etherType: U16, net: Net)
    ensures InnerAttrs(etherType, net).Keys !! META + {KEthernet, KVlan, KEncap}
  {}
}
