/** The stateless frame filter (crates/s2g-mac/src/filter.rs): which Ethernet frames pass, tunnels
    followed. The reason given for a drop is left out. */
module Filter {
  import opened Wrappers
  import opened Bits

  datatype Verdict = Pass | Drop

  datatype Policy = Policy(
    allowIpv4: bool, allowGlobalDst: bool, allowRouterDiscovery: bool, allowDhcpv6: bool, allowMld: bool,
    allowDiscovery: bool, allowEsp: bool, allowOtherEthertypes: bool, blockedPorts: set<nat>)

  const MAX_DEPTH: nat := 3
  const ETHERTYPE_IDENT: nat := 0x88B5
  const ETHERTYPE_IPV4: nat := 0x0800
  const ETHERTYPE_ARP: nat := 0x0806
  const ETHERTYPE_RARP: nat := 0x8035
  const ETHERTYPE_IPV6: nat := 0x86DD
  const GRE_BRIDGING: nat := 0x6558
  const VXLAN_PORT: nat := 4789

  function Be16(data: seq<Octet>, i: nat): nat
    requires i + 1 < |data|
  {
    256 * (data[i] as nat) + (data[i + 1] as nat)
  }

  /** What is left from `pos` on, nothing past the end. */
  function From(data: seq<Octet>, pos: nat): (rest: seq<Octet>)
    ensures |rest| <= |data| && (pos > 0 && |data| > 0 ==> |rest| < |data|)
  {
    if pos <= |data| then data[pos..] else []
  }

  /** Link-local, multicast or unique local. */
  predicate ScopeOk(ip: seq<Octet>)
    requires |ip| >= 40
  {
    ip[24] == 0xFF || (ip[24] == 0xFE && ip[25] / 64 == 2) || ip[24] / 2 == 0x7E
  }

  predicate IsExtension(nh: nat) {
    nh in {0, 43, 44, 51, 60, 135, 139, 140}
  }

  // ---- Frames and EtherTypes ----

  function Check(p: Policy, frame: seq<Octet>): Verdict {
    CheckFrame(p, frame, 0, p.allowGlobalDst)
  }

  function CheckFrame(p: Policy, frame: seq<Octet>, depth: nat, globalOk: bool): Verdict
    decreases |frame|, 4
  {
    if |frame| < 14 then Drop else CheckEthertype(p, Be16(frame, 12), frame[14..], depth, globalOk)
  }

  function CheckEthertype(p: Policy, ethertype: nat, payload: seq<Octet>, depth: nat, globalOk: bool): Verdict
    decreases |payload|, 3
  {
    if ethertype == ETHERTYPE_IDENT then Pass
    else if ethertype == ETHERTYPE_IPV6 then CheckIpv6(p, payload, depth, globalOk)
    else if ethertype == ETHERTYPE_IPV4 || ethertype == ETHERTYPE_ARP || ethertype == ETHERTYPE_RARP then
      if !p.allowIpv4 then Drop else if ethertype == ETHERTYPE_IPV4 then CheckIpv4(p, payload, depth) else Pass
    else if p.allowOtherEthertypes then Pass
    else Drop
  }

  // ---- IPv6 ----

  /** Where the extension headers lead: a header is cut off, the rest is in another fragment, or the
      transport header `nh` is at `pos`. */
  datatype Walk = Truncated | Elsewhere | Transport(nh: nat, pos: nat)

  /** Length of the extension header at `pos`. */
  function ExtensionLen(ip: seq<Octet>, nh: nat, pos: nat): (len: nat)
    requires pos + 8 <= |ip|
    ensures len >= 8
  {
    if nh == 44 then 8
    else if nh == 51 then ((ip[pos + 1] as nat) + 2) * 4
    else ((ip[pos + 1] as nat) + 1) * 8
  }

  function WalkFrom(ip: seq<Octet>, nh: nat, pos: nat): (w: Walk)
    ensures w.Transport? ==> w.pos >= pos && !IsExtension(w.nh)
    decreases |ip| - pos
  {
    if !IsExtension(nh) then Transport(nh, pos)
    else if pos + 8 > |ip| then Truncated
    else if nh == 44 && Be16(ip, pos + 2) / 8 != 0 then Elsewhere
    else WalkFrom(ip, ip[pos], pos + ExtensionLen(ip, nh, pos))
  }

  /** The walk as a loop over the headers. */
  method WalkHeaders(ip: seq<Octet>) returns (w: Walk)
    requires |ip| >= 40
    ensures w == WalkFrom(ip, ip[6], 40)
  {
    hide ExtensionLen;
    var nh: nat, pos: nat := ip[6], 40;
    while IsExtension(nh)
      invariant WalkFrom(ip, ip[6], 40) == WalkFrom(ip, nh, pos)
      decreases |ip| - pos
    {
      if pos + 8 > |ip| {
        return Truncated;
      }
      if nh == 44 && Be16(ip, pos + 2) / 8 != 0 {
        return Elsewhere;
      }
      nh, pos := ip[pos], pos + ExtensionLen(ip, nh, pos);
    }
    w := Transport(nh, pos);
  }

  function CheckIpv6(p: Policy, ip: seq<Octet>, depth: nat, globalOk: bool): Verdict
    decreases |ip|, 2
  {
    if |ip| < 40 || ip[0] / 16 != 6 then Drop
    else if !globalOk && !ScopeOk(ip) then Drop
    else
      match WalkFrom(ip, ip[6], 40)
      case Truncated => Drop
      case Elsewhere => Pass
      case Transport(nh, pos) => CheckTransport(p, nh, From(ip, pos), depth)
  }

  function CheckTransport(p: Policy, nh: nat, data: seq<Octet>, depth: nat): Verdict
    decreases |data|, 3
  {
    if nh == 4 then (if p.allowIpv4 then CheckIpv4(p, data, depth + 1) else Drop)
    else if nh == 41 then (if depth >= MAX_DEPTH then Drop else CheckIpv6(p, data, depth + 1, true))
    else if nh == 47 then CheckGre(p, data, depth)
    else if nh == 50 then CheckEsp(p, data, depth)
    else if nh == 58 then CheckIcmpv6(p, data)
    else if nh == 6 || nh == 17 then CheckPorts(p, nh, data, depth)
    else Pass
  }

  function CheckIcmpv6(p: Policy, icmp: seq<Octet>): Verdict {
    if |icmp| == 0 then Drop
    else if icmp[0] in {133, 134, 137} && !p.allowRouterDiscovery then Drop
    else if icmp[0] in {130, 131, 132, 143, 151, 152, 153} && !p.allowMld then Drop
    else Pass
  }

  // ---- Ports ----

  /** Local discovery chatter by transport and port. */
  predicate IsDiscovery(udp: bool, port: nat) {
    if udp then port in {5353, 5355, 1900, 3702, 137, 138, 5350, 5351} else port in {139, 445, 5357, 5358}
  }

  function CheckPorts(p: Policy, proto: nat, transport: seq<Octet>, depth: nat): Verdict
    decreases |transport|, 1
  {
    if |transport| < 4 then Drop
    else
      var (src, dst, udp) := (Be16(transport, 0), Be16(transport, 2), proto == 17);
      if src in p.blockedPorts || dst in p.blockedPorts then Drop
      else if !p.allowDhcpv6 && udp && (dst == 546 || dst == 547 || src == 546 || src == 547) then Drop
      else if !p.allowDiscovery && (IsDiscovery(udp, src) || IsDiscovery(udp, dst)) then Drop
      else if udp && dst == VXLAN_PORT && |transport| >= 16 + 14 then
        if depth >= MAX_DEPTH then Drop else CheckFrame(p, transport[16..], depth + 1, true)
      else Pass
  }

  // ---- GRE ----

  /** Header length from the checksum, key and sequence flags. */
  function GreHeaderLen(flags: nat): (hdr: nat)
    ensures 4 <= hdr <= 16
  {
    4 + (if (flags / 0x80) % 2 == 1 then 4 else 0) + (if (flags / 0x20) % 2 == 1 then 4 else 0)
    + (if (flags / 0x10) % 2 == 1 then 4 else 0)
  }

  function CheckGre(p: Policy, gre: seq<Octet>, depth: nat): Verdict
    decreases |gre|, 1
  {
    if |gre| < 4 || depth >= MAX_DEPTH then Drop
    else
      var inner := From(gre, GreHeaderLen(gre[0]));
      if Be16(gre, 2) == GRE_BRIDGING then CheckFrame(p, inner, depth + 1, true)
      else CheckEthertype(p, Be16(gre, 2), inner, depth + 1, true)
  }

  // ---- ESP ----

  /** Octets 1, 2, 3 and so on. */
  predicate DefaultPadding(padding: seq<Octet>) {
    forall i | 0 <= i < |padding| :: padding[i] == i + 1
  }

  /** An integrity check value of this length leaves room for a trailer with default padding. */
  predicate PaddedFor(esp: seq<Octet>, icv: nat) {
    && |esp| >= 8 + 2 + icv
    && var end := |esp| - icv;
       var pad: nat := esp[end - 2];
       && 8 + pad + 2 <= end
       && DefaultPadding(esp[end - 2 - pad..end - 2])
  }

  /** Payload and next header under an integrity check value of this length. */
  function EspInner(esp: seq<Octet>, icv: nat): (r: (nat, seq<Octet>))
    requires PaddedFor(esp, icv)
    ensures |r.1| < |esp|
  {
    var end := |esp| - icv;
    (esp[end - 1], esp[8..end - 2 - esp[end - 2]])
  }

  /** The payload parses as what the next header says. */
  predicate PlausibleInner(nh: nat, inner: seq<Octet>) {
    if nh == 41 then |inner| >= 40 && inner[0] / 16 == 6 && Be16(inner, 4) <= |inner| - 40
    else if nh == 4 then |inner| >= 20 && inner[0] / 16 == 4
    else if nh == 6 then |inner| >= 20 && inner[12] / 16 >= 5
    else if nh == 17 then |inner| >= 8 && Be16(inner, 4) == |inner|
    else if nh == 58 then |inner| >= 4
    else nh == 59
  }

  predicate PlausibleIcv(esp: seq<Octet>, icv: nat) {
    PaddedFor(esp, icv) && PlausibleInner(EspInner(esp, icv).0, EspInner(esp, icv).1)
  }

  const ICV_LENGTHS: seq<nat> := [12, 16, 24, 32, 0]

  /** The first usual length that is plausible. */
  function FirstIcv(esp: seq<Octet>, k: nat): (r: Option<nat>)
    requires k <= |ICV_LENGTHS|
    ensures r.Some? ==> PlausibleIcv(esp, r.value)
    decreases |ICV_LENGTHS| - k
  {
    if k == |ICV_LENGTHS| then None
    else if PlausibleIcv(esp, ICV_LENGTHS[k]) then Some(ICV_LENGTHS[k])
    else FirstIcv(esp, k + 1)
  }

  /** The search over integrity check values, padding octet by octet. */
  method FindIcv(esp: seq<Octet>) returns (r: Option<nat>)
    ensures r == FirstIcv(esp, 0)
  {
    hide PlausibleInner, EspInner;
    for k := 0 to |ICV_LENGTHS|
      invariant FirstIcv(esp, 0) == FirstIcv(esp, k)
    {
      var icv := ICV_LENGTHS[k];
      var padded := IsPadded(esp, icv);
      if padded {
        var inner := EspInner(esp, icv);
        if PlausibleInner(inner.0, inner.1) {
          return Some(icv);
        }
      }
    }
    r := None;
  }

  method IsPadded(esp: seq<Octet>, icv: nat) returns (ok: bool)
    ensures ok == PaddedFor(esp, icv)
  {
    if |esp| < 8 + 2 + icv {
      return false;
    }
    var end := |esp| - icv;
    var pad: nat := esp[end - 2];
    if 8 + pad + 2 > end {
      return false;
    }
    var padding := esp[end - 2 - pad..end - 2];
    for i := 0 to |padding|
      invariant forall k | 0 <= k < i :: padding[k] == k + 1
    {
      if padding[i] != i + 1 {
        return false;
      }
    }
    ok := true;
  }

  function CheckEsp(p: Policy, esp: seq<Octet>, depth: nat): Verdict
    decreases |esp|, 1
  {
    if p.allowEsp then Pass
    else if |esp| < 10 || depth >= MAX_DEPTH then Drop
    else
      match FirstIcv(esp, 0)
      case None => Drop
      case Some(icv) =>
        var (nh, inner) := EspInner(esp, icv);
        if nh == 59 then Pass else CheckTransport(p, nh, inner, depth + 1)
  }

  // ---- IPv4 ----

  function CheckIpv4(p: Policy, ip: seq<Octet>, depth: nat): Verdict
    decreases |ip|, 2
  {
    if |ip| < 20 || ip[0] / 16 != 4 then Drop
    else if Be16(ip, 6) % 0x2000 != 0 then Pass
    else
      var (proto, rest) := (ip[9] as nat, From(ip, 4 * (ip[0] % 16)));
      if proto == 6 || proto == 17 then CheckPorts(p, proto, rest, depth)
      else if proto == 47 then CheckGre(p, rest, depth)
      else if proto == 50 then CheckEsp(p, rest, depth)
      else Pass
  }

  // ---- Monotonicity ----

  /** `b` allows whatever `a` allows and blocks no further port. */
  ghost predicate Looser(a: Policy, b: Policy) {
    && (a.allowIpv4 ==> b.allowIpv4) && (a.allowGlobalDst ==> b.allowGlobalDst)
    && (a.allowRouterDiscovery ==> b.allowRouterDiscovery) && (a.allowDhcpv6 ==> b.allowDhcpv6)
    && (a.allowMld ==> b.allowMld) && (a.allowDiscovery ==> b.allowDiscovery) && (a.allowEsp ==> b.allowEsp)
    && (a.allowOtherEthertypes ==> b.allowOtherEthertypes) && b.blockedPorts <= a.blockedPorts
  }

  lemma {:induction false} FrameMonotone(a: Policy, b: Policy, frame: seq<Octet>, depth: nat, g: bool, h: bool)
    requires Looser(a, b) && (g ==> h) && CheckFrame(a, frame, depth, g).Pass?
    ensures CheckFrame(b, frame, depth, h).Pass?
    decreases |frame|, 4
  {
    hide CheckEthertype;
    EthertypeMonotone(a, b, Be16(frame, 12), frame[14..], depth, g, h);
  }

  lemma {:induction false} EthertypeMonotone(a: Policy, b: Policy, t: nat, payload: seq<Octet>, depth: nat, g: bool, h: bool)
    requires Looser(a, b) && (g ==> h) && CheckEthertype(a, t, payload, depth, g).Pass?
    ensures CheckEthertype(b, t, payload, depth, h).Pass?
    decreases |payload|, 3
  {
    hide CheckIpv6, CheckIpv4;
    if t == ETHERTYPE_IPV6 {
      Ipv6Monotone(a, b, payload, depth, g, h);
    } else if t == ETHERTYPE_IPV4 {
      Ipv4Monotone(a, b, payload, depth);
    }
  }

  lemma {:induction false} Ipv6Monotone(a: Policy, b: Policy, ip: seq<Octet>, depth: nat, g: bool, h: bool)
    requires Looser(a, b) && (g ==> h) && CheckIpv6(a, ip, depth, g).Pass?
    ensures CheckIpv6(b, ip, depth, h).Pass?
    decreases |ip|, 2
  {
    hide CheckTransport, ScopeOk;
    var w := WalkFrom(ip, ip[6], 40);
    if w.Transport? {
      TransportMonotone(a, b, w.nh, From(ip, w.pos), depth);
    }
  }

  lemma {:induction false} TransportMonotone(a: Policy, b: Policy, nh: nat, data: seq<Octet>, depth: nat)
    requires Looser(a, b) && CheckTransport(a, nh, data, depth).Pass?
    ensures CheckTransport(b, nh, data, depth).Pass?
    decreases |data|, 3
  {
    hide CheckIpv4, CheckIpv6, CheckGre, CheckEsp, CheckPorts;
    if nh == 4 {
      Ipv4Monotone(a, b, data, depth + 1);
    } else if nh == 41 {
      Ipv6Monotone(a, b, data, depth + 1, true, true);
    } else if nh == 47 {
      GreMonotone(a, b, data, depth);
    } else if nh == 50 {
      EspMonotone(a, b, data, depth);
    } else if nh == 6 || nh == 17 {
      PortsMonotone(a, b, nh, data, depth);
    }
  }

  lemma {:induction false} PortsMonotone(a: Policy, b: Policy, proto: nat, transport: seq<Octet>, depth: nat)
    requires Looser(a, b) && CheckPorts(a, proto, transport, depth).Pass?
    ensures CheckPorts(b, proto, transport, depth).Pass?
    decreases |transport|, 1
  {
    hide CheckFrame, IsDiscovery;
    if proto == 17 && Be16(transport, 2) == VXLAN_PORT && |transport| >= 30 {
      FrameMonotone(a, b, transport[16..], depth + 1, true, true);
    }
  }

  lemma {:induction false} GreMonotone(a: Policy, b: Policy, gre: seq<Octet>, depth: nat)
    requires Looser(a, b) && CheckGre(a, gre, depth).Pass?
    ensures CheckGre(b, gre, depth).Pass?
    decreases |gre|, 1
  {
    hide CheckFrame, CheckEthertype;
    var inner := From(gre, GreHeaderLen(gre[0]));
    if Be16(gre, 2) == GRE_BRIDGING {
      FrameMonotone(a, b, inner, depth + 1, true, true);
    } else {
      EthertypeMonotone(a, b, Be16(gre, 2), inner, depth + 1, true, true);
    }
  }

  lemma {:induction false} EspMonotone(a: Policy, b: Policy, esp: seq<Octet>, depth: nat)
    requires Looser(a, b) && CheckEsp(a, esp, depth).Pass?
    ensures CheckEsp(b, esp, depth).Pass?
    decreases |esp|, 1
  {
    hide CheckTransport, FirstIcv;
    if !b.allowEsp {
      var icv := FirstIcv(esp, 0).value;
      if EspInner(esp, icv).0 != 59 {
        TransportMonotone(a, b, EspInner(esp, icv).0, EspInner(esp, icv).1, depth + 1);
      }
    }
  }

  lemma {:induction false} Ipv4Monotone(a: Policy, b: Policy, ip: seq<Octet>, depth: nat)
    requires Looser(a, b) && CheckIpv4(a, ip, depth).Pass?
    ensures CheckIpv4(b, ip, depth).Pass?
    decreases |ip|, 2
  {
    hide CheckPorts, CheckGre, CheckEsp;
    if Be16(ip, 6) % 0x2000 == 0 {
      var (proto, rest) := (ip[9] as nat, From(ip, 4 * (ip[0] % 16)));
      if proto == 6 || proto == 17 {
        PortsMonotone(a, b, proto, rest, depth);
      } else if proto == 47 {
        GreMonotone(a, b, rest, depth);
      } else if proto == 50 {
        EspMonotone(a, b, rest, depth);
      }
    }
  }

  /** Loosening a policy never drops more: a frame that passes the stricter policy passes the looser
      one, through every nesting of IPv6, IPv4, GRE, VXLAN and unencrypted ESP. */
  lemma {:induction false} CheckMonotone(a: Policy, b: Policy, frame: seq<Octet>)
    requires Looser(a, b) && Check(a, frame).Pass?
    ensures Check(b, frame).Pass?
  {
    hide CheckFrame;
    FrameMonotone(a, b, frame, 0, a.allowGlobalDst, b.allowGlobalDst);
  }

}
