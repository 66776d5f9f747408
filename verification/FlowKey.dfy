/** Flow keys and the attribute trees that carry them (ovs/datapath/flow.h, flow.c).
 *
 * Multi-byte fields hold their value in host order.  The union of IPv4 and IPv6
 * fields is two records, of which the unused one is zero.
 */
module FlowKey {
  import opened Options
  import opened MachineInts

  const DP_MAX_PORTS: U16 := 65535
  const VLAN_TAG_PRESENT: U16 := 0x1000
  const FRAG_LATER: U8 := 2        // OVS_FRAG_TYPE_LATER, also the largest valid value

  const ETH_P_802_2: U16 := 0x0004
  const ETH_P_IP: U16 := 0x0800
  const ETH_P_ARP: U16 := 0x0806
  const ETH_P_RARP: U16 := 0x8035
  const ETH_P_8021Q: U16 := 0x8100
  const ETH_P_IPV6: U16 := 0x86DD
  const MIN_ETHERTYPE: U16 := 1536

  const ICMP: U8 := 1
  const TCP: U8 := 6
  const UDP: U8 := 17
  const ICMPV6: U8 := 58
  const NEIGHBOUR_SOLICITATION: U8 := 135
  const NEIGHBOUR_ADVERTISEMENT: U8 := 136

  // ----- the key ---------------------------------------------------------

  datatype Tun = Tun(id: nat, src: nat, dst: nat, tos: nat, ttl: nat, hasKey: bool, dontFragment: bool, csum: bool)
  datatype Ip = Ip(proto: U8, tos: nat, ttl: nat, frag: U8)
  datatype Ports = Ports(src: U16, dst: U16)
  datatype Nd = Nd(target: nat, sll: nat, tll: nat)
  datatype V4 = V4(src: nat, dst: nat, tp: Ports, sha: nat, tha: nat)
  datatype V6 = V6(src: nat, dst: nat, flowLabel: nat, tp: Ports, nd: Nd)
  datatype Net = Net(ip: Ip, v4: V4, v6: V6)

  datatype Key = Key(
    tun: Tun, priority: nat, mark: nat, inPort: U16,
    ethSrc: nat, ethDst: nat, tci: U16, etherType: U16, net: Net)

  const NO_TUN := Tun(0, 0, 0, 0, 0, false, false, false)
  const NO_PORTS := Ports(0, 0)
  const NO_ND := Nd(0, 0, 0)
  const NO_IP := Ip(0, 0, 0, 0)
  const NO_V4 := V4(0, 0, NO_PORTS, 0, 0)
  const NO_V6 := V6(0, 0, 0, NO_PORTS, NO_ND)
  const NO_NET := Net(NO_IP, NO_V4, NO_V6)

  /** How far into the key the used part reaches, by its last field. */
  datatype Span = ThroughEth | ThroughV4Addr | ThroughV4Ports | ThroughArp | ThroughV6Label | ThroughV6Ports | ThroughNd

  // ----- the attributes --------------------------------------------------

  datatype TunKind = TunId | TunSrc | TunDst | TunTos | TunTtl | TunDontFragment | TunCsum

  /** An attribute of a tunnel; unknown types and wrong lengths are `BadTun`. */
  datatype TunAttr = TunAttr(kind: TunKind, value: nat) | BadTun

  /** Attributes in sequence, and what the walk over them leaves of the length. */
  datatype TunNest = TunNest(attrs: seq<TunAttr>, rem: int)
  datatype Nest = Nest(attrs: seq<Attr>, rem: int)

  datatype Attr =
    | Priority(value: nat)
    | InPort(port: nat)
    | SkbMark(mark: nat)
    | Tunnel(tunnel: TunNest)
    | TunnelId(id: nat)
    | Ethernet(src: nat, dst: nat)
    | Vlan(tci: U16)
    | EtherType(etherType: U16)
    | Encap(nest: Nest)
    | Ipv4(v4src: nat, v4dst: nat, ip: Ip)
    | Ipv6(v6src: nat, v6dst: nat, flowLabel: nat, ip: Ip)
    | Tcp(ports: Ports)
    | Udp(ports: Ports)
    | Icmp(icmpType: U8, icmpCode: U8)
    | Icmpv6(icmpType: U8, icmpCode: U8)
    | Arp(sip: nat, tip: nat, op: U16, sha: nat, tha: nat)
    | NdAttr(nd: Nd)
    | Unused(number: nat)    // a type in range that has no meaning, with no payload
    | Bad                    // a type out of range, or a wrong length

  datatype Kind =
    | KPriority | KInPort | KSkbMark | KTunnel | KTunnelId | KEthernet | KVlan | KEtherType | KEncap
    | KIpv4 | KIpv6 | KTcp | KUdp | KIcmp | KIcmpv6 | KArp | KNd | KUnused(number: nat) | KBad

  function KindOf(x: Attr): Kind {
    match x
    case Priority(_) => KPriority
    case InPort(_) => KInPort
    case SkbMark(_) => KSkbMark
    case Tunnel(_) => KTunnel
    case TunnelId(_) => KTunnelId
    case Ethernet(_, _) => KEthernet
    case Vlan(_) => KVlan
    case EtherType(_) => KEtherType
    case Encap(_) => KEncap
    case Ipv4(_, _, _) => KIpv4
    case Ipv6(_, _, _, _) => KIpv6
    case Tcp(_) => KTcp
    case Udp(_) => KUdp
    case Icmp(_, _) => KIcmp
    case Icmpv6(_, _) => KIcmpv6
    case Arp(_, _, _, _, _) => KArp
    case NdAttr(_) => KNd
    case Unused(n) => KUnused(n)
    case Bad => KBad
  }

  /** The attributes of a nest, by kind. */
  type Table = map<Kind, Attr>

  ghost predicate Typed(a: Table) {
    forall k | k in a :: KindOf(a[k]) == k
  }

  ghost predicate DistinctKinds(s: seq<Attr>) {
    forall i, j | 0 <= i < j < |s| :: KindOf(s[i]) != KindOf(s[j])
  }

  /** The attributes by kind, unless one is bad or two have one kind. */
  ghost function TableOf(s: seq<Attr>): (r: Option<Table>)
    ensures r.Some? ==> Typed(r.value)
  {
    if s == [] then Some(map[])
    else
      var x := s[|s| - 1];
      var r := TableOf(s[..|s| - 1]);
      if r.None? || x.Bad? || KindOf(x) in r.value then None
      else Some(r.value[KindOf(x) := x])
  }

  /** The order of the attributes does not matter. */
  lemma {:induction false} TableOfIs(s: seq<Attr>)
    ensures TableOf(s).Some? <==> DistinctKinds(s) && Bad !in s
    ensures TableOf(s).Some? ==>
              forall x :: x in s <==> KindOf(x) in TableOf(s).value && TableOf(s).value[KindOf(x)] == x
  {
    hide KindOf;
    if s != [] {
      var t, x := s[..|s| - 1], s[|s| - 1];
      TableOfIs(t);
      assert s == t + [x];
    }
  }

  ghost predicate Lists(s: seq<Attr>, a: Table) {
    TableOf(s).Some? && TableOf(s).value == a
  }

  ghost function NestTable(n: Nest): Option<Table> {
    if n.rem == 0 then TableOf(n.attrs) else None
  }

  // ----- which keys are the meaning of attributes ------------------------

  predicate IsNd(icmpType: int) {
    icmpType == NEIGHBOUR_SOLICITATION || icmpType == NEIGHBOUR_ADVERTISEMENT
  }

  /** The transport fields of an IPv4 flow that its attributes can express. */
  ghost predicate V4PortsOk(ip: Ip, tp: Ports) {
    if ip.frag == FRAG_LATER || ip.proto !in {TCP, UDP, ICMP} then tp == NO_PORTS
    else ip.proto == ICMP ==> tp.src < 0x100 && tp.dst < 0x100
  }

  ghost predicate V6PortsOk(ip: Ip, tp: Ports, nd: Nd) {
    && (if ip.frag == FRAG_LATER || ip.proto !in {TCP, UDP, ICMPV6} then tp == NO_PORTS
        else ip.proto == ICMPV6 ==> tp.src < 0x100 && tp.dst < 0x100)
    && ((ip.frag != FRAG_LATER && ip.proto == ICMPV6 && IsNd(tp.src)) || nd == NO_ND)
  }

  ghost predicate NetOk(etherType: U16, net: Net) {
    if etherType == ETH_P_IP then
      net.ip.frag <= FRAG_LATER && net.v6 == NO_V6 && net.v4.sha == net.v4.tha == 0 && V4PortsOk(net.ip, net.v4.tp)
    else if etherType == ETH_P_IPV6 then
      net.ip.frag <= FRAG_LATER && net.v4 == NO_V4 && V6PortsOk(net.ip, net.v6.tp, net.v6.nd)
    else if etherType == ETH_P_ARP || etherType == ETH_P_RARP then
      net.ip == NO_IP.(proto := net.ip.proto) && net.v6 == NO_V6 && net.v4.tp == NO_PORTS
    else
      net == NO_NET
  }

  ghost predicate InnerOk(etherType: U16, net: Net) {
    (etherType == ETH_P_802_2 || etherType >= MIN_ETHERTYPE) && NetOk(etherType, net)
  }

  predicate Tagged(tci: U16) { tci / VLAN_TAG_PRESENT % 2 == 1 }

  /** A tagged TCI has bit 12 set. */
  lemma TagBit(tci: U16)
    ensures Tagged(tci) <==> exists high, low | 0 <= high < 8 && 0 <= low < 0x1000 :: tci == TciOf(high, low)
  {
    assert Tagged(tci) ==> tci == TciOf(tci / 0x2000, tci % 0x1000);
  }

  ghost function TciOf(high: int, low: int): int { 0x2000 * high + 0x1000 + low }

  ghost predicate TunOk(t: Tun) {
    if t.dst == 0 then t == NO_TUN else t.hasKey || t.id == 0
  }

  ghost predicate WellFormed(k: Key) {
    && TunOk(k.tun) && InnerOk(k.etherType, k.net)
    && (k.tci == 0 || Tagged(k.tci))
  }

  /** The used part of a key. */
  function KeySpan(etherType: U16, net: Net): Span {
    if etherType == ETH_P_IP then
      if net.ip.frag != FRAG_LATER && net.ip.proto in {TCP, UDP, ICMP} then ThroughV4Ports else ThroughV4Addr
    else if etherType == ETH_P_IPV6 then
      if net.ip.frag == FRAG_LATER || net.ip.proto !in {TCP, UDP, ICMPV6} then ThroughV6Label
      else if net.ip.proto == ICMPV6 && IsNd(net.v6.tp.src) then ThroughNd
      else ThroughV6Ports
    else if etherType == ETH_P_ARP || etherType == ETH_P_RARP then ThroughArp
    else ThroughEth
  }

  // ----- which attributes mean a key -------------------------------------

  ghost function V4PortAttrs(ip: Ip, tp: Ports): Table {
    if ip.frag == FRAG_LATER then map[]
    else if ip.proto == TCP then map[KTcp := Tcp(tp)]
    else if ip.proto == UDP then map[KUdp := Udp(tp)]
    else if ip.proto == ICMP then map[KIcmp := Icmp(tp.src % 0x100, tp.dst % 0x100)]
    else map[]
  }

  ghost function V6PortAttrs(ip: Ip, tp: Ports, nd: Nd): Table {
    if ip.frag == FRAG_LATER then map[]
    else if ip.proto == TCP then map[KTcp := Tcp(tp)]
    else if ip.proto == UDP then map[KUdp := Udp(tp)]
    else if ip.proto == ICMPV6 then
      map[KIcmpv6 := Icmpv6(tp.src % 0x100, tp.dst % 0x100)]
      + if IsNd(tp.src % 0x100) then map[KNd := NdAttr(nd)] else map[]
    else map[]
  }

  ghost function NetAttrs(etherType: U16, net: Net): Table {
    if etherType == ETH_P_IP then
      map[KIpv4 := Ipv4(net.v4.src, net.v4.dst, net.ip)] + V4PortAttrs(net.ip, net.v4.tp)
    else if etherType == ETH_P_IPV6 then
      map[KIpv6 := Ipv6(net.v6.src, net.v6.dst, net.v6.flowLabel, net.ip)] + V6PortAttrs(net.ip, net.v6.tp, net.v6.nd)
    else if etherType == ETH_P_ARP || etherType == ETH_P_RARP then
      map[KArp := Arp(net.v4.src, net.v4.dst, net.ip.proto, net.v4.sha, net.v4.tha)]
    else
      map[]
  }

  ghost function InnerAttrs(etherType: U16, net: Net): Table {
    if etherType == ETH_P_802_2 then map[]
    else map[KEtherType := EtherType(etherType)] + NetAttrs(etherType, net)
  }

  /** A type attribute is there for every frame but 802.2 ones, and is at least 0x600. */
  lemma TypeLeast(etherType: U16, net: Net)
    requires NetOk(etherType, net)
    ensures InnerOk(etherType, net) <==>
            var a := InnerAttrs(etherType, net);
            if KEtherType in a then a[KEtherType] == EtherType(etherType) && etherType >= 0x600
            else a == map[] && etherType == 4
  {}

  /** The last attribute of a kind wins. */
  ghost function Last(s: seq<TunAttr>, kind: TunKind): Option<nat> {
    if s == [] then None
    else
      var x := s[|s| - 1];
      if x.TunAttr? && x.kind == kind then Some(x.value) else Last(s[..|s| - 1], kind)
  }

  /** The last attribute of a kind, if there is one. */
  lemma {:induction false} LastIs(s: seq<TunAttr>, kind: TunKind) returns (i: int)
    ensures -1 <= i < |s| && forall j | i < j < |s| :: !(s[j].TunAttr? && s[j].kind == kind)
    ensures i >= 0 ==> s[i].TunAttr? && s[i].kind == kind
    ensures Last(s, kind) == if i == -1 then None else Some(s[i].value)
    decreases |s|
  {
    if s == [] {
      i := -1;
    } else {
      i := |s| - 1;
      if !(s[i].TunAttr? && s[i].kind == kind) {
        i := LastIs(s[..|s| - 1], kind);
      }
    }
  }

  function OrZero(o: Option<nat>): nat {
    if o.Some? then o.value else 0
  }

  ghost predicate TunFields(s: seq<TunAttr>, t: Tun) {
    && t.id == OrZero(Last(s, TunId)) && t.src == OrZero(Last(s, TunSrc)) && t.dst == OrZero(Last(s, TunDst))
    && t.tos == OrZero(Last(s, TunTos)) && t.ttl == OrZero(Last(s, TunTtl))
    && t.hasKey == Last(s, TunId).Some?
    && t.dontFragment == Last(s, TunDontFragment).Some? && t.csum == Last(s, TunCsum).Some?
  }

  /** A tunnel nest means `t`.  It must name a destination and a TTL; a negative remainder is let through. */
  ghost predicate TunnelMeans(n: TunNest, t: Tun) {
    && BadTun !in n.attrs && n.rem <= 0
    && TunFields(n.attrs, t)
    && t.dst != 0 && Last(n.attrs, TunTtl).Some?
  }

  /** A tunnel nest means something exactly if it is not malformed, some attribute gives a TTL, and the last one
   * that gives a destination gives one other than 0. */
  lemma TunnelAccepted(n: TunNest)
    ensures (exists t :: TunnelMeans(n, t)) <==>
            && BadTun !in n.attrs && n.rem <= 0
            && (exists i | 0 <= i < |n.attrs| :: n.attrs[i].TunAttr? && n.attrs[i].kind == TunTtl)
            && (exists i | 0 <= i < |n.attrs| ::
                  && n.attrs[i].TunAttr? && n.attrs[i].kind == TunDst && n.attrs[i].value != 0
                  && forall j | i < j < |n.attrs| :: !(n.attrs[j].TunAttr? && n.attrs[j].kind == TunDst))
  {
    var s := n.attrs;
    var i := LastIs(s, TunTtl);
    var k := LastIs(s, TunDst);
    hide Last;
    var t := Tun(OrZero(Last(s, TunId)), OrZero(Last(s, TunSrc)), OrZero(Last(s, TunDst)), OrZero(Last(s, TunTos)),
                 OrZero(Last(s, TunTtl)), Last(s, TunId).Some?, Last(s, TunDontFragment).Some?,
                 Last(s, TunCsum).Some?);
    assert TunFields(s, t);
    assert TunnelMeans(n, t) <==> BadTun !in s && n.rem <= 0 && t.dst != 0 && i != -1;
  }

  const META := {KPriority, KInPort, KSkbMark, KTunnel, KTunnelId}

  /** The attributes outside the packet: absent ones stand for zero, no port, no tunnel. */
  ghost predicate MetaMeans(a: Table, tun: Tun, priority: nat, mark: nat, inPort: U16)
    requires Typed(a)
  {
    && priority == (if KPriority in a then a[KPriority].value else 0)
    && mark == (if KSkbMark in a then a[KSkbMark].mark else 0)
    && (if KInPort in a then a[KInPort].port == inPort < DP_MAX_PORTS else inPort == DP_MAX_PORTS)
    && TunMeans(a, tun)
  }

  /** A tunnel ID may be repeated outside the tunnel, but not stand alone. */
  ghost predicate TunMeans(a: Table, tun: Tun)
    requires Typed(a)
  {
    && (if KTunnel in a then TunnelMeans(a[KTunnel].tunnel, tun) else tun == NO_TUN)
    && (KTunnelId in a ==> KTunnel in a && tun.hasKey && a[KTunnelId].id == tun.id)
  }

  /** What follows the Ethernet addresses: under a VLAN tag everything else is encapsulated. */
  ghost predicate FrameMeans(a: Table, tci: U16, etherType: U16, net: Net)
    requires Typed(a)
  {
    if tci == 0 && etherType != ETH_P_8021Q then
      a == InnerAttrs(etherType, net)
    else
      && a.Keys == {KVlan, KEtherType, KEncap}
      && a[KEtherType] == EtherType(ETH_P_8021Q) && a[KVlan] == Vlan(tci)
      && (if tci == 0 then a[KEncap] == Encap(Nest([], 0))
          else a[KEncap].nest.rem == 0 && Lists(a[KEncap].nest.attrs, InnerAttrs(etherType, net)))
  }

  ghost predicate TableMeans(a: Table, k: Key)
    requires Typed(a)
  {
    && MetaMeans(a, k.tun, k.priority, k.mark, k.inPort)
    && KEthernet in a && a[KEthernet] == Ethernet(k.ethSrc, k.ethDst)
    && FrameMeans(a - META - {KEthernet}, k.tci, k.etherType, k.net)
  }

  /** Only what differs from the default is there. */
  ghost predicate Terse(a: Table, tun: Tun, priority: nat, mark: nat, inPort: U16) {
    && (KPriority in a <==> priority != 0) && (KSkbMark in a <==> mark != 0)
    && (KInPort in a <==> inPort != DP_MAX_PORTS)
    && (KTunnel in a <==> tun.dst != 0) && (KTunnelId in a <==> tun.hasKey)
  }

  /** A tree that means `k` and has no attribute for a default. */
  ghost predicate Writes(n: Nest, k: Key) {
    Means(n, k) && Terse(NestTable(n).value, k.tun, k.priority, k.mark, k.inPort)
  }

  /** The attribute tree `n` means the key `k`. */
  ghost predicate Means(n: Nest, k: Key) {
    NestTable(n).Some? && TableMeans(NestTable(n).value, k)
  }
}
