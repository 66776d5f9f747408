/** What each attribute of an accepted tree says of the flow key (ovs/datapath/flow.c). */
module FlowFields {
  import opened MachineInts
  import opened FlowKey

  /** An attribute of the frame itself says this of the type and the network fields. */
  ghost predicate SaysNet(x: Attr, etherType: U16, net: Net) {
    match x
    case EtherType(e) => etherType == e
    case Ipv4(src, dst, ip) => net.v4.src == src && net.v4.dst == dst && net.ip == ip
    case Ipv6(src, dst, flowLabel, ip) =>
      net.v6.src == src && net.v6.dst == dst && net.v6.flowLabel == flowLabel && net.ip == ip
    case Tcp(ports) => ports == if etherType == 0x0800 then net.v4.tp else net.v6.tp
    case Udp(ports) => ports == if etherType == 0x0800 then net.v4.tp else net.v6.tp
    case Icmp(t, c) => net.v4.tp == Ports(t, c)
    case Icmpv6(t, c) => net.v6.tp == Ports(t, c)
    case NdAttr(nd) => net.v6.nd == nd
    case Arp(sip, tip, op, sha, tha) =>
      net.v4.src == sip && net.v4.dst == tip && net.ip.proto == op && net.v4.sha == sha && net.v4.tha == tha
    case _ => false
  }

  /** An attribute of the tree says this of the key. */
  ghost predicate Says(x: Attr, k: Key) {
    match x
    case Priority(v) => k.priority == v
    case SkbMark(v) => k.mark == v
    case InPort(p) => k.inPort == p
    case Tunnel(n) => TunnelMeans(n, k.tun)
    case TunnelId(id) => k.tun.hasKey && k.tun.id == id
    case Ethernet(src, dst) => k.ethSrc == src && k.ethDst == dst
    case Vlan(tci) => k.tci == tci
    case Encap(n) => forall y | y in n.attrs :: SaysNet(y, k.etherType, k.net)
    case EtherType(e) => e == 0x8100 || k.etherType == e
    case _ => SaysNet(x, k.etherType, k.net)
  }

  lemma V4Says(net: Net, x: Attr)
    requires V4PortsOk(net.ip, net.v4.tp)
    requires var a := V4PortAttrs(net.ip, net.v4.tp); KindOf(x) in a && a[KindOf(x)] == x
    ensures SaysNet(x, ETH_P_IP, net)
  {}

  lemma V6Says(net: Net, x: Attr)
    requires V6PortsOk(net.ip, net.v6.tp, net.v6.nd)
    requires var a := V6PortAttrs(net.ip, net.v6.tp, net.v6.nd); KindOf(x) in a && a[KindOf(x)] == x
    ensures SaysNet(x, ETH_P_IPV6, net)
  {}

  lemma NetSays(etherType: U16, net: Net, x: Attr)
    requires InnerOk(etherType, net)
    requires KindOf(x) in InnerAttrs(etherType, net) && InnerAttrs(etherType, net)[KindOf(x)] == x
    ensures SaysNet(x, etherType, net)
  {
    hide V4PortAttrs, V6PortAttrs, V4PortsOk, V6PortsOk;
    if etherType == ETH_P_IP && KindOf(x) in V4PortAttrs(net.ip, net.v4.tp) {
      V4Says(net, x);
    } else if etherType == ETH_P_IPV6 && KindOf(x) in V6PortAttrs(net.ip, net.v6.tp, net.v6.nd) {
      V6Says(net, x);
    }
  }

  lemma ListSays(s: seq<Attr>, etherType: U16, net: Net)
    requires InnerOk(etherType, net) && Lists(s, InnerAttrs(etherType, net))
    ensures forall x | x in s :: SaysNet(x, etherType, net)
  {
    TableOfIs(s);
    hide TableOf, InnerAttrs, InnerOk, SaysNet, KindOf;
    forall x | x in s ensures SaysNet(x, etherType, net) {
      NetSays(etherType, net, x);
    }
  }

  lemma FrameSays(a: Table, k: Key, x: Attr)
    requires Typed(a) && FrameMeans(a, k.tci, k.etherType, k.net) && InnerOk(k.etherType, k.net)
    requires KindOf(x) in a && a[KindOf(x)] == x
    ensures Says(x, k)
  {
    hide InnerOk, InnerAttrs, TableOf;
    if k.tci == 0 && k.etherType != ETH_P_8021Q {
      NetSays(k.etherType, k.net, x);
    } else if k.tci != 0 {
      ListSays(a[KEncap].nest.attrs, k.etherType, k.net);
    }
  }

  lemma MetaSays(a: Table, k: Key, x: Attr)
    requires Typed(a) && MetaMeans(a, k.tun, k.priority, k.mark, k.inPort)
    requires KindOf(x) in META && KindOf(x) in a && a[KindOf(x)] == x
    ensures Says(x, k)
  {
    hide TunnelMeans;
  }

  /** Every attribute of a tree that means a key says its part of the key, whatever the order. */
  lemma TreeSays(n: Nest, k: Key, x: Attr)
    requires WellFormed(k) && Means(n, k) && x in n.attrs
    ensures Says(x, k)
  {
    TableOfIs(n.attrs);
    hide TableOf, FrameMeans, MetaMeans, InnerOk, Says, TunOk, KindOf;
    var a := NestTable(n).value;
    if KindOf(x) in META {
      MetaSays(a, k, x);
    } else if KindOf(x) == KEthernet {
      EthernetSays(a, k, x);
    } else {
      FrameSays(a - META - {KEthernet}, k, x);
    }
  }

  lemma EthernetSays(a: Table, k: Key, x: Attr)
    requires KindOf(x) == KEthernet && KEthernet in a && a[KEthernet] == x
    requires a[KEthernet] == Ethernet(k.ethSrc, k.ethDst)
    ensures Says(x, k)
  {}
}
