/** How much of a flow key counts: from the start that ovs_flow_tbl_lookup takes to
 * the length that ovs_flow_from_nlattrs gives (ovs/datapath/flow.c). */
module FlowSpan {
  import opened FlowKey
  import opened MachineInts

  /** The network fields as if those beyond `span` were zero. */
  function Cut(net: Net, span: Span): Net {
    match span
    case ThroughEth => NO_NET
    case ThroughV4Addr => Net(net.ip, net.v4.(tp := NO_PORTS, sha := 0, tha := 0), NO_V6)
    case ThroughV4Ports => Net(net.ip, net.v4.(sha := 0, tha := 0), NO_V6)
    case ThroughArp => Net(net.ip, net.v4.(tp := NO_PORTS), NO_V6)
    case ThroughV6Label => Net(net.ip, NO_V4, net.v6.(tp := NO_PORTS, nd := NO_ND))
    case ThroughV6Ports => Net(net.ip, NO_V4, net.v6.(nd := NO_ND))
    case ThroughNd => Net(net.ip, NO_V4, net.v6)
  }

  /** Nothing of a key is beyond its span. */
  lemma NothingBeyond(etherType: U16, net: Net)
    requires NetOk(etherType, net)
    ensures Cut(net, KeySpan(etherType, net)) == net
  {}

  /** Which attributes there are, by the numbers of the protocols. */
  lemma AttrsByNumber(etherType: U16, net: Net)
    requires NetOk(etherType, net)
    ensures var a, ip := NetAttrs(etherType, net), net.ip;
            && (KIpv4 in a <==> etherType == 0x0800)
            && (KIpv6 in a <==> etherType == 0x86dd)
            && (KArp in a <==> etherType == 0x0806 || etherType == 0x8035)
            && (KTcp in a <==> (etherType == 0x0800 || etherType == 0x86dd) && ip.frag < 2 && ip.proto == 6)
            && (KUdp in a <==> (etherType == 0x0800 || etherType == 0x86dd) && ip.frag < 2 && ip.proto == 17)
            && (KIcmp in a <==> etherType == 0x0800 && ip.frag < 2 && ip.proto == 1)
            && (KIcmpv6 in a <==> etherType == 0x86dd && ip.frag < 2 && ip.proto == 58)
            && (KNd in a <==> KIcmpv6 in a && (net.v6.tp.src == 135 || net.v6.tp.src == 136))
            && a.Keys <= {KIpv4, KIpv6, KArp, KTcp, KUdp, KIcmp, KIcmpv6, KNd}
  {}

  /** The span ends with the last attribute. */
  lemma SpanOfLast(etherType: U16, net: Net)
    requires NetOk(etherType, net)
    ensures var a, span := NetAttrs(etherType, net), KeySpan(etherType, net);
            && (span == ThroughEth <==> a == map[])
            && (span == ThroughArp <==> KArp in a)
            && (span == ThroughV4Addr <==> a.Keys == {KIpv4})
            && (span == ThroughV4Ports <==> KIpv4 in a && (KTcp in a || KUdp in a || KIcmp in a))
            && (span == ThroughV6Label <==> a.Keys == {KIpv6})
            && (span == ThroughV6Ports <==> KIpv6 in a && (KTcp in a || KUdp in a || KIcmpv6 in a) && KNd !in a)
            && (span == ThroughNd <==> KNd in a)
  {
    AttrsByNumber(etherType, net);
    hide V4PortAttrs, V6PortAttrs, NetAttrs;
    var a := NetAttrs(etherType, net);
    assert a == map[] <==> a.Keys == {};
  }

  /** The comparison of ovs_flow_tbl_lookup for key `x` with a stored key `y`: it leaves out
   * the tunnel if `x` has none, and what is beyond the span of `x`. */
  ghost predicate SameUsed(x: Key, y: Key) {
    && x == y.(tun := x.tun, net := x.net)
    && (x.tun.dst != 0 ==> x.tun == y.tun)
    && var span := KeySpan(x.etherType, x.net); Cut(x.net, span) == Cut(y.net, span)
  }

  /** The compared part decides the rest, but for the tunnel: the keys are equal unless
   * only the stored one has a tunnel. */
  lemma UsedPartDecides(x: Key, y: Key)
    requires WellFormed(x) && WellFormed(y) && SameUsed(x, y)
    ensures x == y.(tun := x.tun)
    ensures x == y <==> x.tun.dst != 0 || y.tun.dst == 0
  {
    NothingBeyond(x.etherType, x.net);
    NothingBeyond(y.etherType, y.net);
    SpanInUsed(x.etherType, x.net, y.net);
  }

  lemma SpanInUsed(etherType: U16, m: Net, n: Net)
    requires NetOk(etherType, m) && NetOk(etherType, n)
    requires Cut(m, KeySpan(etherType, m)) == Cut(n, KeySpan(etherType, m))
    ensures KeySpan(etherType, m) == KeySpan(etherType, n)
  {}

  /** A key without a tunnel compares equal to the same one with a tunnel. */
  lemma TunnelNotCompared(x: Key, tun: Tun)
    requires WellFormed(x) && x.tun.dst == 0 && TunOk(tun) && tun.dst != 0
    ensures WellFormed(x.(tun := tun)) && SameUsed(x, x.(tun := tun)) && x != x.(tun := tun)
  {}
}
