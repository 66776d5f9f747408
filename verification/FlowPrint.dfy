/** Writing a flow key as attributes (ovs/datapath/flow.c), and the round trip. */
module FlowPrint {
  import opened Options
  import opened MachineInts
  import opened FlowKey
  import opened FlowParse

  lemma Appended(s: seq<Attr>, a: Table, x: Attr)
    requires Lists(s, a) && !x.Bad? && KindOf(x) !in a
    ensures Lists(s + [x], a + map[KindOf(x) := x])
  {
    assert (s + [x])[..|s|] == s;
    assert a + map[KindOf(x) := x] == a[KindOf(x) := x];
  }

  lemma LastAppended(s: seq<TunAttr>, kind: TunKind, value: nat)
    ensures forall k :: Last(s + [TunAttr(kind, value)], k) == if k == kind then Some(value) else Last(s, k)
  {
    assert (s + [TunAttr(kind, value)])[..|s|] == s;
  }

  /** nla_put_* inside the tunnel nest. */
  method PutTun(s: seq<TunAttr>, kind: TunKind, value: nat) returns (r: seq<TunAttr>)
    requires BadTun !in s
    ensures BadTun !in r
    ensures forall k :: Last(r, k) == if k == kind then Some(value) else Last(s, k)
  {
    LastAppended(s, kind, value);
    r := s + [TunAttr(kind, value)];
  }

  /** ipv4_tun_to_nlattr. */
  method PrintTunnel(t: Tun) returns (n: TunNest)
    ensures TunOk(t) && t.dst != 0 ==> TunnelMeans(n, t)
  {
    var s: seq<TunAttr> := [];
    assert forall k :: Last(s, k) == None;
    hide Last;
    if t.hasKey {
      s := PutTun(s, TunId, t.id);
    }
    if t.src != 0 {
      s := PutTun(s, TunSrc, t.src);
    }
    s := PutTun(s, TunDst, t.dst);
    if t.tos != 0 {
      s := PutTun(s, TunTos, t.tos);
    }
    s := PutTun(s, TunTtl, t.ttl);
    if t.dontFragment {
      s := PutTun(s, TunDontFragment, 0);
    }
    if t.csum {
      s := PutTun(s, TunCsum, 0);
    }
    n := TunNest(s, 0);
  }

  /** nla_put_* and nla_reserve. */
  method Put(s: seq<Attr>, ghost a: Table, x: Attr) returns (r: seq<Attr>)
    requires Lists(s, a) && !x.Bad? && KindOf(x) !in a
    ensures Lists(r, a + map[KindOf(x) := x])
  {
    Appended(s, a, x);
    r := s + [x];
  }

  /** The transport part of ovs_flow_to_nlattrs. */
  method PrintPorts(etherType: U16, net: Net) returns (r: seq<Attr>)
    requires etherType == ETH_P_IP || etherType == ETH_P_IPV6
    ensures etherType == ETH_P_IP ==> Lists(r, V4PortAttrs(net.ip, net.v4.tp))
    ensures etherType == ETH_P_IPV6 ==> Lists(r, V6PortAttrs(net.ip, net.v6.tp, net.v6.nd))
  {
    r := [];
    assert Lists(r, map[]);
    hide TableOf;
    if net.ip.frag != FRAG_LATER {
      if net.ip.proto == TCP {
        r := Put(r, map[], Tcp(if etherType == ETH_P_IP then net.v4.tp else net.v6.tp));
      } else if net.ip.proto == UDP {
        r := Put(r, map[], Udp(if etherType == ETH_P_IP then net.v4.tp else net.v6.tp));
      } else if etherType == ETH_P_IP && net.ip.proto == ICMP {
        r := Put(r, map[], Icmp(net.v4.tp.src % 0x100, net.v4.tp.dst % 0x100));
      } else if etherType == ETH_P_IPV6 && net.ip.proto == ICMPV6 {
        r := PrintIcmpv6(net);
      }
    }
  }

  method PrintIcmpv6(net: Net) returns (r: seq<Attr>)
    requires net.ip.frag != FRAG_LATER && net.ip.proto == ICMPV6
    ensures Lists(r, V6PortAttrs(net.ip, net.v6.tp, net.v6.nd))
  {
    r := [];
    assert Lists(r, map[]);
    hide TableOf;
    var x := Icmpv6(net.v6.tp.src % 0x100, net.v6.tp.dst % 0x100);
    r := Put(r, map[], x);
    if x.icmpType == NEIGHBOUR_SOLICITATION || x.icmpType == NEIGHBOUR_ADVERTISEMENT {
      r := Put(r, map[KIcmpv6 := x], NdAttr(net.v6.nd));
    }
  }

  /** The network part of ovs_flow_to_nlattrs. */
  method PrintNet(etherType: U16, net: Net) returns (r: seq<Attr>)
    ensures Lists(r, NetAttrs(etherType, net))
  {
    r := [];
    assert Lists(r, map[]);
    hide TableOf, V4PortAttrs, V6PortAttrs;
    if etherType == ETH_P_IP {
      V4PortKinds(net.ip, net.v4.tp);
      r := PrintIp(etherType, net, Ipv4(net.v4.src, net.v4.dst, net.ip), V4PortAttrs(net.ip, net.v4.tp));
    } else if etherType == ETH_P_IPV6 {
      V6PortKinds(net.ip, net.v6.tp, net.v6.nd);
      r := PrintIp(etherType, net, Ipv6(net.v6.src, net.v6.dst, net.v6.flowLabel, net.ip),
                   V6PortAttrs(net.ip, net.v6.tp, net.v6.nd));
    } else if etherType == ETH_P_ARP || etherType == ETH_P_RARP {
      r := Put(r, map[], Arp(net.v4.src, net.v4.dst, net.ip.proto, net.v4.sha, net.v4.tha));
    }
  }

  /** An IP header and what follows it. */
  method PrintIp(etherType: U16, net: Net, x: Attr, ghost ports: Table) returns (r: seq<Attr>)
    requires etherType == ETH_P_IP || etherType == ETH_P_IPV6
    requires etherType == ETH_P_IP ==> ports == V4PortAttrs(net.ip, net.v4.tp)
    requires etherType == ETH_P_IPV6 ==> ports == V6PortAttrs(net.ip, net.v6.tp, net.v6.nd)
    requires !x.Bad? && KindOf(x) !in ports
    ensures Lists(r, map[KindOf(x) := x] + ports)
  {
    r := [];
    assert Lists(r, map[]);
    hide TableOf, V4PortAttrs, V6PortAttrs, KindOf;
    r := Put(r, map[], x);
    var s := PrintPorts(etherType, net);
    Concatenated(r, s);
    r := r + s;
  }

  /** ovs_flow_to_nlattrs from the Ethernet type on, whatever the fields hold. */
  method PrintInner(etherType: U16, net: Net) returns (r: seq<Attr>)
    ensures Lists(r, InnerAttrs(etherType, net))
  {
    r := [];
    assert Lists(r, map[]);
    hide TableOf, NetAttrs;
    if etherType == ETH_P_802_2 {
      return;
    }
    r := Put(r, map[], EtherType(etherType));
    var rest := PrintNet(etherType, net);
    NetKinds(etherType, net);
    Concatenated(r, rest);
    r := r + rest;
  }

  lemma {:induction false} Concatenated(s: seq<Attr>, t: seq<Attr>)
    requires TableOf(s).Some? && TableOf(t).Some? && TableOf(s).value.Keys !! TableOf(t).value.Keys
    ensures Lists(s + t, TableOf(s).value + TableOf(t).value)
  {
    var a, b := TableOf(s).value, TableOf(t).value;
    if t == [] {
      assert s + t == s && a + map[] == a;
    } else {
      var u, x := t[..|t| - 1], t[|t| - 1];
      var c := TableOf(u).value;
      Concatenated(s, u);
      Appended(s + u, a + c, x);
      assert s + t == s + u + [x];
      assert a + c + map[KindOf(x) := x] == a + b;
    }
  }

  /** Writes an attribute only if it is wanted. */
  method PutIf(want: bool, s: seq<Attr>, ghost a: Table, x: Attr) returns (r: seq<Attr>, ghost b: Table)
    requires Lists(s, a) && !x.Bad? && KindOf(x) !in a
    ensures Lists(r, b) && b == if want then a[KindOf(x) := x] else a
  {
    r, b := s, a;
    if want {
      r := Put(s, a, x);
      b := a[KindOf(x) := x];
    }
  }

  /** The priority and tunnel of a key, as if it had neither mark nor port. */
  method PrintTunnelPart(k: Key) returns (r: seq<Attr>)
    ensures TableOf(r).Some? && TableOf(r).value.Keys <= {KPriority, KTunnel, KTunnelId}
    ensures TunOk(k.tun) ==> MetaMeans(TableOf(r).value, k.tun, k.priority, 0, DP_MAX_PORTS)
    ensures Terse(TableOf(r).value, k.tun, k.priority, 0, DP_MAX_PORTS)
  {
    r := [];
    ghost var a: Table := map[];
    assert Lists(r, a);
    hide TableOf, TunnelMeans, TunOk, Typed, Lists, MetaMeans, Terse;
    r, a := PutIf(k.priority != 0, r, a, Priority(k.priority));
    var n := PrintTunnel(k.tun);
    r, a := PutIf(k.tun.dst != 0, r, a, Tunnel(n));
    r, a := PutIf(k.tun.hasKey, r, a, TunnelId(k.tun.id));
    Listed(r, a);
    TunnelPartMeans(k, n, a);
  }

  ghost function TunnelPart(k: Key, n: TunNest): Table {
    var a := if k.priority != 0 then map[KPriority := Priority(k.priority)] else map[];
    var b := if k.tun.dst != 0 then a[KTunnel := Tunnel(n)] else a;
    if k.tun.hasKey then b[KTunnelId := TunnelId(k.tun.id)] else b
  }

  lemma TunnelPartMeans(k: Key, n: TunNest, a: Table)
    requires a == TunnelPart(k, n) && Typed(a) && (TunOk(k.tun) && k.tun.dst != 0 ==> TunnelMeans(n, k.tun))
    ensures a.Keys <= {KPriority, KTunnel, KTunnelId}
    ensures TunOk(k.tun) ==> MetaMeans(a, k.tun, k.priority, 0, DP_MAX_PORTS)
    ensures Terse(a, k.tun, k.priority, 0, DP_MAX_PORTS)
  {
    hide TunnelMeans, Typed, KindOf;
  }

  /** The metadata part of ovs_flow_to_nlattrs. */
  method PrintMeta(k: Key) returns (r: seq<Attr>)
    ensures TableOf(r).Some? && TableOf(r).value.Keys <= META
    ensures TunOk(k.tun) ==> MetaMeans(TableOf(r).value, k.tun, k.priority, k.mark, k.inPort)
    ensures Terse(TableOf(r).value, k.tun, k.priority, k.mark, k.inPort)
  {
    r := PrintTunnelPart(k);
    ghost var a := TableOf(r).value;
    assert Lists(r, a);
    hide TableOf, TunnelMeans, TunOk, Typed, Lists;
    r, a := PutIf(k.inPort != DP_MAX_PORTS, r, a, InPort(k.inPort));
    r, a := PutIf(k.mark != 0, r, a, SkbMark(k.mark));
    Listed(r, a);
  }

  lemma Listed(s: seq<Attr>, a: Table)
    requires Lists(s, a)
    ensures TableOf(s).Some? && TableOf(s).value == a && Typed(a)
  {}

  /** The frame part of ovs_flow_to_nlattrs: under a tag everything goes into the encapsulation. */
  method PrintFrame(k: Key) returns (r: seq<Attr>)
    ensures TableOf(r).Some? && TableOf(r).value.Keys !! META + {KEthernet}
    ensures FrameMeans(TableOf(r).value, k.tci, k.etherType, k.net)
  {
    hide TableOf, InnerAttrs, Typed;
    InnerKinds(k.etherType, k.net);
    if k.tci != 0 || k.etherType == ETH_P_8021Q {
      var inner := [];
      if k.tci != 0 {
        inner := PrintInner(k.etherType, k.net);
      }
      r := PrintTag(k.tci, Nest(inner, 0));
    } else {
      r := PrintInner(k.etherType, k.net);
    }
  }

  method PrintTag(tci: U16, inner: Nest) returns (r: seq<Attr>)
    ensures Lists(r, map[KEtherType := EtherType(ETH_P_8021Q), KVlan := Vlan(tci), KEncap := Encap(inner)])
  {
    r := [];
    ghost var a: Table := map[];
    assert Lists(r, a);
    hide TableOf, Lists;
    r, a := PutIf(true, r, a, EtherType(ETH_P_8021Q));
    r, a := PutIf(true, r, a, Vlan(tci));
    r, a := PutIf(true, r, a, Encap(inner));
    Listed(r, a);
    ListedAs(r, map[KEtherType := EtherType(ETH_P_8021Q), KVlan := Vlan(tci), KEncap := Encap(inner)]);
  }

  lemma ListedAs(s: seq<Attr>, a: Table)
    requires TableOf(s).Some? && TableOf(s).value == a
    ensures Lists(s, a)
  {}

  /** ovs_flow_to_nlattrs: a well-formed key is written as a tree that means it. */
  method ToAttrs(k: Key) returns (n: Nest)
    ensures WellFormed(k) ==> Writes(n, k)
  {
    hide TableOf, MetaMeans, FrameMeans, InnerOk, TunOk, Terse;
    var r := PrintMeta(k);
    ghost var a := TableOf(r).value;
    r := Put(r, a, Ethernet(k.ethSrc, k.ethDst));
    var s := PrintFrame(k);
    ghost var b := TableOf(s).value;
    Concatenated(r, s);
    r := r + s;
    n := Nest(r, 0);
    Combined(a, Ethernet(k.ethSrc, k.ethDst), b, k);
  }

  lemma Combined(a: Table, eth: Attr, b: Table, k: Key)
    requires Typed(a) && Typed(b) && a.Keys <= META && b.Keys !! META + {KEthernet}
    requires eth == Ethernet(k.ethSrc, k.ethDst)
    requires TunOk(k.tun) ==> MetaMeans(a, k.tun, k.priority, k.mark, k.inPort)
    requires FrameMeans(b, k.tci, k.etherType, k.net)
    ensures Typed(a + map[KEthernet := eth] + b)
    ensures WellFormed(k) ==> TableMeans(a + map[KEthernet := eth] + b, k)
    ensures Terse(a, k.tun, k.priority, k.mark, k.inPort) ==>
              Terse(a + map[KEthernet := eth] + b, k.tun, k.priority, k.mark, k.inPort)
  {
    hide InnerOk, TunOk, FrameMeans, TunnelMeans;
    assert a + map[KEthernet := eth] + b - META - {KEthernet} == b;
  }

  // ----- a tree means one key --------------------------------------------

  lemma NetOnce(etherType: U16, m: Net, n: Net)
    requires NetOk(etherType, m) && NetOk(etherType, n) && NetAttrs(etherType, m) == NetAttrs(etherType, n)
    ensures m == n
  {
    var a := NetAttrs(etherType, m);
    if etherType == ETH_P_IP {
      assert a[KIpv4] == Ipv4(m.v4.src, m.v4.dst, m.ip) == Ipv4(n.v4.src, n.v4.dst, n.ip);
      V4PortsOnce(a, m, n);
    } else if etherType == ETH_P_IPV6 {
      assert a[KIpv6] == Ipv6(m.v6.src, m.v6.dst, m.v6.flowLabel, m.ip)
          == Ipv6(n.v6.src, n.v6.dst, n.v6.flowLabel, n.ip);
      V6PortsOnce(a, m, n);
    } else if etherType == ETH_P_ARP || etherType == ETH_P_RARP {
      assert a[KArp] == Arp(m.v4.src, m.v4.dst, m.ip.proto, m.v4.sha, m.v4.tha)
          == Arp(n.v4.src, n.v4.dst, n.ip.proto, n.v4.sha, n.v4.tha);
    }
  }

  lemma V4PortsOnce(a: Table, m: Net, n: Net)
    requires a == NetAttrs(ETH_P_IP, m) == NetAttrs(ETH_P_IP, n) && m.ip == n.ip
    requires V4PortsOk(m.ip, m.v4.tp) && V4PortsOk(n.ip, n.v4.tp)
    ensures m.v4.tp == n.v4.tp
  {
    assert m.ip.frag != FRAG_LATER && m.ip.proto == TCP ==> a[KTcp] == Tcp(m.v4.tp) == Tcp(n.v4.tp);
    assert m.ip.frag != FRAG_LATER && m.ip.proto == UDP ==> a[KUdp] == Udp(m.v4.tp) == Udp(n.v4.tp);
    assert m.ip.frag != FRAG_LATER && m.ip.proto == ICMP ==>
        a[KIcmp] == Icmp(m.v4.tp.src, m.v4.tp.dst) == Icmp(n.v4.tp.src, n.v4.tp.dst);
  }

  lemma V6PortsOnce(a: Table, m: Net, n: Net)
    requires a == NetAttrs(ETH_P_IPV6, m) == NetAttrs(ETH_P_IPV6, n) && m.ip == n.ip
    requires V6PortsOk(m.ip, m.v6.tp, m.v6.nd) && V6PortsOk(n.ip, n.v6.tp, n.v6.nd)
    ensures m.v6.tp == n.v6.tp && m.v6.nd == n.v6.nd
  {
    assert m.ip.frag != FRAG_LATER && m.ip.proto == TCP ==> a[KTcp] == Tcp(m.v6.tp) == Tcp(n.v6.tp);
    assert m.ip.frag != FRAG_LATER && m.ip.proto == UDP ==> a[KUdp] == Udp(m.v6.tp) == Udp(n.v6.tp);
    if m.ip.frag != FRAG_LATER && m.ip.proto == ICMPV6 {
      assert a[KIcmpv6] == Icmpv6(m.v6.tp.src, m.v6.tp.dst) == Icmpv6(n.v6.tp.src, n.v6.tp.dst);
      assert IsNd(m.v6.tp.src) ==> a[KNd] == NdAttr(m.v6.nd) == NdAttr(n.v6.nd);
    }
  }

  lemma InnerOnce(d: U16, m: Net, e: U16, n: Net)
    requires InnerOk(d, m) && InnerOk(e, n) && InnerAttrs(d, m) == InnerAttrs(e, n) && Typed(InnerAttrs(d, m))
    ensures d == e && m == n
  {
    hide NetAttrs, NetOk;
    var a := InnerAttrs(d, m);
    var etherType := if KEtherType in a then a[KEtherType].etherType else ETH_P_802_2;
    InnerHead(d, m);
    InnerHead(e, n);
    InnerSplit(a, etherType);
    NetOnce(d, m, n);
  }

  lemma InnerHead(etherType: U16, net: Net)
    ensures KEtherType in InnerAttrs(etherType, net) <==> etherType != ETH_P_802_2
    ensures etherType != ETH_P_802_2 ==> InnerAttrs(etherType, net)[KEtherType] == EtherType(etherType)
  {
    hide NetAttrs;
    NetKinds(etherType, net);
  }

  lemma FrameOnce(a: Table, k: Key, l: Key)
    requires Typed(a) && InnerOk(k.etherType, k.net) && InnerOk(l.etherType, l.net)
    requires FrameMeans(a, k.tci, k.etherType, k.net) && FrameMeans(a, l.tci, l.etherType, l.net)
    ensures k.tci == l.tci && k.etherType == l.etherType && k.net == l.net
  {
    hide InnerAttrs, TableOf;
    InnerHead(k.etherType, k.net);
    InnerHead(l.etherType, l.net);
    InnerKinds(k.etherType, k.net);
    InnerKinds(l.etherType, l.net);
    if k.tci != 0 || k.etherType != ETH_P_8021Q {
      InnerOnce(k.etherType, k.net, l.etherType, l.net);
    }
  }

  /** A tree means at most one key. */
  lemma MeansOneKey(n: Nest, k: Key, l: Key)
    requires WellFormed(k) && WellFormed(l) && Means(n, k) && Means(n, l)
    ensures k == l
  {
    hide TableOf, FrameMeans, InnerOk, TunOk;
    var a := NestTable(n).value;
    FrameOnce(a - META - {KEthernet}, k, l);
    MetaOnce(a, k, l);
  }

  lemma MetaOnce(a: Table, k: Key, l: Key)
    requires Typed(a)
    requires MetaMeans(a, k.tun, k.priority, k.mark, k.inPort) && MetaMeans(a, l.tun, l.priority, l.mark, l.inPort)
    ensures k.tun == l.tun && k.priority == l.priority && k.mark == l.mark && k.inPort == l.inPort
  {
    hide TunnelMeans;
    if KTunnel in a {
      TunnelUnique(a[KTunnel].tunnel, k.tun);
    }
  }

  /** What was accepted once is written as a tree that is accepted again, with the same key and used part. */
  method RoundTrip(n: Nest) returns (first: Parsed, m: Nest, again: Parsed)
    ensures first.Parsed? ==> WellFormed(first.key) && Means(n, first.key)
    ensures first.Parsed? ==> Writes(m, first.key) && again.Parsed? && Means(m, again.key)
    ensures first.Parsed? ==> again.span == KeySpan(first.key.etherType, first.key.net)
    ensures again == first
  {
    hide Means, WellFormed, KeySpan, Terse;
    first := FromAttrs(n);
    m, again := n, first;
    if first.Parsed? {
      m := ToAttrs(first.key);
      again := FromAttrs(m);
      if again.Parsed? {
        MeansOneKey(m, first.key, again.key);
      }
    }
  }
}
