/** What the frame filter promises, stated without its checks: which layers a frame contains, which
    layers a policy permits, and that exactly the frames of permitted layers pass. */
module FilterLayers {
  import opened Wrappers
  import opened Bits
  import opened Filter

  // ---- Layers ----

  /** One layer of a frame. `Broken` is cut off or malformed, `Deep` a tunnel within three others;
      `Sealed` is ESP that is not looked into, `Plain` anything nobody minds. */
  datatype Layer =
    | Broken
    | Deep
    | Plain
    | OtherType(ethertype: nat)
    | Internet4
    | Internet6(dst: seq<Octet>, outermost: bool)
    | Control(icmpType: nat)
    | Ports(udp: bool, srcPort: nat, dstPort: nat)
    | Sealed

  /** Multicast, fe80::/10 or fc00::/7. */
  predicate Local(dst: seq<Octet>) {
    |dst| == 16 && (dst[0] == 0xFF || (dst[0] == 0xFE && 0x80 <= dst[1] <= 0xBF) || 0xFC <= dst[0] <= 0xFD)
  }

  predicate RouterMessage(t: nat) {
    t == 133 || t == 134 || t == 137
  }

  predicate ListenerMessage(t: nat) {
    130 <= t <= 132 || t == 143 || 151 <= t <= 153
  }

  predicate Dhcpv6(port: nat) {
    546 <= port <= 547
  }

  /** Multicast DNS, LLMNR, SSDP, Web Services Discovery, NetBIOS, SMB and port mapping. */
  predicate Discovery(udp: bool, port: nat) {
    match port
    case 5353 => udp
    case 5355 => udp
    case 1900 => udp
    case 3702 => udp
    case 137 => udp
    case 138 => udp
    case 5350 => udp
    case 5351 => udp
    case 139 => !udp
    case 445 => !udp
    case 5357 => !udp
    case 5358 => !udp
    case _ => false
  }

  /** What the switches of a policy mean, layer by layer. */
  predicate Permitted(p: Policy, l: Layer) {
    match l
    case Broken => false
    case Deep => false
    case Plain => true
    case OtherType(_) => p.allowOtherEthertypes
    case Internet4 => p.allowIpv4
    case Internet6(dst, outermost) => p.allowGlobalDst || !outermost || Local(dst)
    case Control(t) => (p.allowRouterDiscovery || !RouterMessage(t)) && (p.allowMld || !ListenerMessage(t))
    case Ports(udp, src, dst) =>
      && src !in p.blockedPorts && dst !in p.blockedPorts
      && (p.allowDhcpv6 || !udp || !(Dhcpv6(src) || Dhcpv6(dst)))
      && (p.allowDiscovery || !(Discovery(udp, src) || Discovery(udp, dst)))
    case Sealed => p.allowEsp
  }

  predicate AllPermitted(p: Policy, ls: seq<Layer>) {
    forall i | 0 <= i < |ls| :: Permitted(p, ls[i])
  }

  // ---- Taking a frame apart ----

  /** A 16-bit number in network order. */
  function Word(data: seq<Octet>, i: nat): nat
    requires i + 1 < |data|
  {
    data[i] as nat * 0x100 + data[i + 1] as nat
  }

  function Rest(data: seq<Octet>, pos: nat): (rest: seq<Octet>)
    ensures |rest| <= |data| && (pos > 0 && |data| > 0 ==> |rest| < |data|)
  {
    if pos < |data| then data[pos..] else []
  }

  /** Layers of a frame `depth` tunnels deep; ESP is looked into if `inspect`. */
  function OfFrame(frame: seq<Octet>, depth: nat, outermost: bool, inspect: bool): seq<Layer>
    decreases |frame|, 4
  {
    if |frame| < 14 then [Broken] else OfType(Word(frame, 12), frame[14..], depth, outermost, inspect)
  }

  function OfType(t: nat, data: seq<Octet>, depth: nat, outermost: bool, inspect: bool): seq<Layer>
    decreases |data|, 3
  {
    match t
    case 0x88B5 => [Plain]
    case 0x86DD => OfIpv6(data, depth, outermost, inspect)
    case 0x0800 => [Internet4] + OfIpv4(data, depth, inspect)
    case 0x0806 => [Internet4]
    case 0x8035 => [Internet4]
    case _ => [OtherType(t)]
  }

  function OfIpv6(ip: seq<Octet>, depth: nat, outermost: bool, inspect: bool): seq<Layer>
    decreases |ip|, 2
  {
    if |ip| < 40 || !(0x60 <= ip[0] <= 0x6F) then [Broken]
    else
      [Internet6(ip[24..40], outermost)]
      + match WalkFrom(ip, ip[6], 40)
        case Truncated => [Broken]
        case Elsewhere => [Plain]
        case Transport(nh, pos) => OfTransport(nh, Rest(ip, pos), depth, inspect)
  }

  function OfTransport(nh: nat, data: seq<Octet>, depth: nat, inspect: bool): seq<Layer>
    decreases |data|, 3
  {
    match nh
    case 4 => [Internet4] + OfIpv4(data, depth + 1, inspect)
    case 41 => if depth < 3 then OfIpv6(data, depth + 1, false, inspect) else [Deep]
    case 47 => OfGre(data, depth, inspect)
    case 50 => OfEsp(data, depth, inspect)
    case 58 => if |data| == 0 then [Broken] else [Control(data[0])]
    case 6 => OfPorts(false, data, depth, inspect)
    case 17 => OfPorts(true, data, depth, inspect)
    case _ => [Plain]
  }

  /** Ports, and behind UDP port 4789 the Ethernet frame that VXLAN carries. */
  function OfPorts(udp: bool, data: seq<Octet>, depth: nat, inspect: bool): seq<Layer>
    decreases |data|, 1
  {
    if |data| < 4 then [Broken]
    else
      [Ports(udp, Word(data, 0), Word(data, 2))]
      + if udp && Word(data, 2) == 4789 && |data| >= 30 then
          if depth < 3 then OfFrame(data[16..], depth + 1, false, inspect) else [Deep]
        else []
  }

  function Flag(b: bool): nat {
    if b then 4 else 0
  }

  /** GRE: four octets, and four each for checksum, key and sequence number. */
  function OfGre(gre: seq<Octet>, depth: nat, inspect: bool): seq<Layer>
    decreases |gre|, 1
  {
    if |gre| < 4 then [Broken]
    else if depth >= 3 then [Deep]
    else
      var inner := Rest(gre, 4 + Flag(gre[0] >= 0x80) + Flag(gre[0] % 0x40 >= 0x20) + Flag(gre[0] % 0x20 >= 0x10));
      if Word(gre, 2) == 0x6558 then OfFrame(inner, depth + 1, false, inspect)
      else OfType(Word(gre, 2), inner, depth + 1, false, inspect)
  }

  function OfEsp(esp: seq<Octet>, depth: nat, inspect: bool): seq<Layer>
    decreases |esp|, 1
  {
    if !inspect then [Sealed]
    else if |esp| < 10 then [Broken]
    else if depth >= 3 then [Deep]
    else
      match FirstIcv(esp, 0)
      case None => [Sealed]
      case Some(icv) =>
        var (nh, inner) := EspInner(esp, icv);
        if nh == 59 then [Plain] else OfTransport(nh, inner, depth + 1, inspect)
  }

  /** Ports are looked at in the first fragment only. */
  function OfIpv4(ip: seq<Octet>, depth: nat, inspect: bool): seq<Layer>
    decreases |ip|, 2
  {
    if |ip| < 20 || !(0x40 <= ip[0] <= 0x4F) then [Broken]
    else if Word(ip, 6) % 0x2000 > 0 then [Plain]
    else
      var rest := Rest(ip, ip[0] as nat % 0x10 * 4);
      match ip[9]
      case 6 => OfPorts(false, rest, depth, inspect)
      case 17 => OfPorts(true, rest, depth, inspect)
      case 47 => OfGre(rest, depth, inspect)
      case 50 => OfEsp(rest, depth, inspect)
      case _ => [Plain]
  }

  /** The layers that count under a policy. */
  function Layers(p: Policy, frame: seq<Octet>): seq<Layer> {
    OfFrame(frame, 0, true, !p.allowEsp)
  }

  // ---- Exactly the permitted pass ----

  lemma {:induction false} AllConcat(p: Policy, a: seq<Layer>, b: seq<Layer>)
    ensures AllPermitted(p, a + b) <==> AllPermitted(p, a) && AllPermitted(p, b)
  {
    hide Permitted;
    if AllPermitted(p, a + b) {
      assert forall i | 0 <= i < |a| :: a[i] == (a + b)[i];
      assert forall i | 0 <= i < |b| :: b[i] == (a + b)[|a| + i];
    }
  }

  lemma {:induction false} AllOne(p: Policy, l: Layer)
    ensures AllPermitted(p, [l]) <==> Permitted(p, l)
  {
    hide Permitted;
    assert [l][0] == l;
  }

  lemma {:induction false} SameRest(data: seq<Octet>, pos: nat)
    ensures Rest(data, pos) == From(data, pos)
  {
  }

  lemma {:induction false} FrameIff(p: Policy, frame: seq<Octet>, depth: nat, outermost: bool)
    ensures CheckFrame(p, frame, depth, p.allowGlobalDst || !outermost).Pass? <==> AllPermitted(p, OfFrame(frame, depth, outermost, !p.allowEsp))
    decreases |frame|, 4
  {
    hide CheckEthertype, OfType, Permitted;
    AllOne(p, Broken);
    BrokenDrops(p);
    if |frame| >= 14 {
      TypeIff(p, Be16(frame, 12), frame[14..], depth, outermost);
    }
  }

  lemma {:induction false} BrokenDrops(p: Policy)
    ensures !Permitted(p, Broken) && !Permitted(p, Deep) && Permitted(p, Plain)
  {
  }

  lemma {:induction false} TypeIff(p: Policy, t: nat, data: seq<Octet>, depth: nat, outermost: bool)
    ensures CheckEthertype(p, t, data, depth, p.allowGlobalDst || !outermost).Pass? <==> AllPermitted(p, OfType(t, data, depth, outermost, !p.allowEsp))
    decreases |data|, 3
  {
    hide CheckIpv6, CheckIpv4, OfIpv6, OfIpv4, AllPermitted;
    AllOne(p, Plain);
    AllOne(p, Internet4);
    AllOne(p, OtherType(t));
    if t == ETHERTYPE_IPV6 {
      Ipv6Iff(p, data, depth, outermost);
    } else if t == ETHERTYPE_IPV4 {
      AllConcat(p, [Internet4], OfIpv4(data, depth, !p.allowEsp));
      Ipv4Iff(p, data, depth);
    }
  }

  lemma {:induction false} ScopeIs(ip: seq<Octet>)
    requires |ip| >= 40
    ensures ScopeOk(ip) <==> Local(ip[24..40])
  {
  }

  lemma {:induction false} Ipv6Iff(p: Policy, ip: seq<Octet>, depth: nat, outermost: bool)
    ensures CheckIpv6(p, ip, depth, p.allowGlobalDst || !outermost).Pass? <==> AllPermitted(p, OfIpv6(ip, depth, outermost, !p.allowEsp))
    decreases |ip|, 2
  {
    hide CheckTransport, OfTransport, AllPermitted, ScopeOk, Local, WalkFrom, Rest, From;
    AllOne(p, Broken);
    AllOne(p, Plain);
    if |ip| >= 40 && ip[0] / 16 == 6 {
      ScopeIs(ip);
      AllOne(p, Internet6(ip[24..40], outermost));
      var w := WalkFrom(ip, ip[6], 40);
      var rest := match w case Truncated => [Broken] case Elsewhere => [Plain]
                          case Transport(nh, pos) => OfTransport(nh, Rest(ip, pos), depth, !p.allowEsp);
      AllConcat(p, [Internet6(ip[24..40], outermost)], rest);
      if w.Transport? {
        SameRest(ip, w.pos);
        TransportIff(p, w.nh, From(ip, w.pos), depth);
      }
    }
  }

  lemma {:induction false} TransportIff(p: Policy, nh: nat, data: seq<Octet>, depth: nat)
    ensures CheckTransport(p, nh, data, depth).Pass? <==> AllPermitted(p, OfTransport(nh, data, depth, !p.allowEsp))
    decreases |data|, 3
  {
    hide CheckIpv4, CheckIpv6, CheckGre, CheckEsp, CheckPorts, OfIpv4, OfIpv6, OfGre, OfEsp, OfPorts, AllPermitted;
    AllOne(p, Broken);
    AllOne(p, Plain);
    AllOne(p, Deep);
    AllOne(p, Internet4);
    match nh
    case 4 =>
      AllConcat(p, [Internet4], OfIpv4(data, depth + 1, !p.allowEsp));
      Ipv4Iff(p, data, depth + 1);
    case 41 => Ipv6Iff(p, data, depth + 1, false);
    case 47 => GreIff(p, data, depth);
    case 50 => EspIff(p, data, depth);
    case 58 =>
      if |data| > 0 {
        AllOne(p, Control(data[0]));
      }
    case 6 => PortsIff(p, 6, data, depth);
    case 17 => PortsIff(p, 17, data, depth);
    case _ =>
  }

  lemma {:induction false} PortsIff(p: Policy, proto: nat, data: seq<Octet>, depth: nat)
    requires proto == 6 || proto == 17
    ensures CheckPorts(p, proto, data, depth).Pass? <==> AllPermitted(p, OfPorts(proto == 17, data, depth, !p.allowEsp))
    decreases |data|, 1
  {
    hide CheckFrame, OfFrame, AllPermitted, Discovery, IsDiscovery;
    AllOne(p, Broken);
    AllOne(p, Deep);
    if |data| >= 4 {
      var (udp, src, dst) := (proto == 17, Be16(data, 0), Be16(data, 2));
      AllOne(p, Ports(udp, src, dst));
      SameDiscovery(udp, src);
      SameDiscovery(udp, dst);
      assert [Ports(udp, src, dst)] + [] == [Ports(udp, src, dst)];
      if udp && dst == VXLAN_PORT && |data| >= 30 {
        AllConcat(p, [Ports(udp, src, dst)], if depth < 3 then OfFrame(data[16..], depth + 1, false, !p.allowEsp) else [Deep]);
        FrameIff(p, data[16..], depth + 1, false);
      }
    }
  }

  lemma {:induction false} SameDiscovery(udp: bool, port: nat)
    ensures Discovery(udp, port) <==> IsDiscovery(udp, port)
  {
  }

  lemma {:induction false} GreIff(p: Policy, gre: seq<Octet>, depth: nat)
    ensures CheckGre(p, gre, depth).Pass? <==> AllPermitted(p, OfGre(gre, depth, !p.allowEsp))
    decreases |gre|, 1
  {
    hide CheckFrame, CheckEthertype, OfFrame, OfType, AllPermitted, Rest, From, GreHeaderLen;
    AllOne(p, Broken);
    AllOne(p, Deep);
    if |gre| >= 4 && depth < 3 {
      SameGreLen(gre[0]);
      var inner := From(gre, GreHeaderLen(gre[0]));
      SameRest(gre, GreHeaderLen(gre[0]));
      if Be16(gre, 2) == GRE_BRIDGING {
        FrameIff(p, inner, depth + 1, false);
      } else {
        TypeIff(p, Be16(gre, 2), inner, depth + 1, false);
      }
    }
  }

  lemma {:induction false} SameGreLen(flags: Octet)
    ensures GreHeaderLen(flags) == 4 + Flag(flags >= 0x80) + Flag(flags % 0x40 >= 0x20) + Flag(flags % 0x20 >= 0x10)
  {
  }

  lemma {:induction false} EspIff(p: Policy, esp: seq<Octet>, depth: nat)
    ensures CheckEsp(p, esp, depth).Pass? <==> AllPermitted(p, OfEsp(esp, depth, !p.allowEsp))
    decreases |esp|, 1
  {
    hide CheckTransport, OfTransport, FirstIcv, AllPermitted;
    AllOne(p, Broken);
    AllOne(p, Deep);
    AllOne(p, Plain);
    AllOne(p, Sealed);
    if !p.allowEsp && |esp| >= 10 && depth < 3 && FirstIcv(esp, 0).Some? {
      var (nh, inner) := EspInner(esp, FirstIcv(esp, 0).value);
      if nh != 59 {
        TransportIff(p, nh, inner, depth + 1);
      }
    }
  }

  lemma {:induction false} Ipv4Iff(p: Policy, ip: seq<Octet>, depth: nat)
    ensures CheckIpv4(p, ip, depth).Pass? <==> AllPermitted(p, OfIpv4(ip, depth, !p.allowEsp))
    decreases |ip|, 2
  {
    hide CheckPorts, CheckGre, CheckEsp, OfPorts, OfGre, OfEsp, AllPermitted, Rest, From;
    AllOne(p, Broken);
    AllOne(p, Plain);
    if |ip| >= 20 && ip[0] / 16 == 4 && Be16(ip, 6) % 0x2000 == 0 {
      var pos := 4 * (ip[0] as nat % 16);
      SameRest(ip, pos);
      var rest := From(ip, pos);
      match ip[9]
      case 6 => PortsIff(p, 6, rest, depth);
      case 17 => PortsIff(p, 17, rest, depth);
      case 47 => GreIff(p, rest, depth);
      case 50 => EspIff(p, rest, depth);
      case _ =>
    }
  }

  /** A frame passes if and only if every layer in it is well formed, not nested too deep and
      permitted by the policy. */
  lemma {:induction false} PassesIff(p: Policy, frame: seq<Octet>)
    ensures Check(p, frame).Pass? <==> AllPermitted(p, Layers(p, frame))
  {
    hide CheckFrame, OfFrame, AllPermitted;
    FrameIff(p, frame, 0, true);
  }

  /** Byte by byte for the commonest frame, TCP directly over IPv6. */
  lemma {:induction false} TcpOverIpv6(p: Policy, frame: seq<Octet>)
    requires |frame| >= 58 && frame[12] == 0x86 && frame[13] == 0xDD && 0x60 <= frame[14] <= 0x6F && frame[20] == 6
    ensures var (src, dst) := (Word(frame, 54), Word(frame, 56));
            Check(p, frame).Pass? <==>
              && (p.allowGlobalDst || Local(frame[38..54]))
              && src !in p.blockedPorts && dst !in p.blockedPorts
              && (p.allowDiscovery || (src !in {139, 445, 5357, 5358} && dst !in {139, 445, 5357, 5358}))
  {
    hide Local, CheckFrame;
    PassesIff(p, frame);
    var ip := frame[14..];
    assert ip[24..40] == frame[38..54];
    var (l, m) := (Internet6(ip[24..40], true), Ports(false, Word(frame, 54), Word(frame, 56)));
    TcpLayers(p, frame);
    AllConcat(p, [l], [m]);
    AllOne(p, l);
    AllOne(p, m);
  }

  lemma {:induction false} TcpLayers(p: Policy, frame: seq<Octet>)
    requires |frame| >= 58 && frame[12] == 0x86 && frame[13] == 0xDD && 0x60 <= frame[14] <= 0x6F && frame[20] == 6
    ensures Layers(p, frame) == [Internet6(frame[14..][24..40], true)] + [Ports(false, Word(frame, 54), Word(frame, 56))]
  {
    var (ip, inspect) := (frame[14..], !p.allowEsp);
    assert WalkFrom(ip, ip[6], 40) == Transport(6, 40);
    assert Rest(ip, 40) == frame[54..];
    assert OfPorts(false, frame[54..], 0, inspect) == [Ports(false, Word(frame, 54), Word(frame, 56))];
    assert OfTransport(6, frame[54..], 0, inspect) == OfPorts(false, frame[54..], 0, inspect);
    assert OfFrame(frame, 0, true, inspect) == OfType(0x86DD, ip, 0, true, inspect);
    assert OfType(0x86DD, ip, 0, true, inspect) == OfIpv6(ip, 0, true, inspect);
    assert OfIpv6(ip, 0, true, inspect) == [Internet6(ip[24..40], true)] + OfTransport(6, Rest(ip, 40), 0, inspect);
  }

  // ---- Extension headers ----

  /** Hop-by-hop options, routing, fragment, authentication, destination options, mobility, host
      identity and shim6 headers. */
  predicate Extension(kind: nat) {
    kind == 0 || kind == 43 || kind == 44 || kind == 51 || kind == 60 || kind == 135 || kind == 139 || kind == 140
  }

  /** A header of `len` octets as its own length field gives it. */
  predicate HeaderAt(ip: seq<Octet>, kind: nat, pos: nat, len: nat)
    requires pos + 8 <= |ip|
  {
    if kind == 44 then len == 8
    else if kind == 51 then len >= 8 && len % 4 == 0 && ip[pos + 1] as nat == len / 4 - 2
    else len >= 8 && len % 8 == 0 && ip[pos + 1] as nat == len / 8 - 1
  }

  /** The extension header at `pos` is there, not that of a later fragment, and names and ends at the next. */
  predicate Leads(ip: seq<Octet>, kind: nat, pos: nat, next: nat, nextPos: nat) {
    && Extension(kind) && pos + 8 <= |ip| && (kind == 44 ==> Word(ip, pos + 2) < 8)
    && pos < nextPos && HeaderAt(ip, kind, pos, nextPos - pos) && next == ip[pos] as nat
  }

  /** The headers of these kinds follow one another from `pos` on, and the last is no extension header. */
  ghost predicate Chain(ip: seq<Octet>, kinds: seq<nat>, starts: seq<nat>, kind: nat, pos: nat) {
    && |kinds| == |starts| > 0 && kinds[0] == kind && starts[0] == pos
    && (forall i | 0 <= i < |kinds| - 1 :: Leads(ip, kinds[i], starts[i], kinds[i + 1], starts[i + 1]))
    && !Extension(kinds[|kinds| - 1])
  }

  lemma {:induction false} LengthIs(ip: seq<Octet>, kind: nat, pos: nat, len: nat)
    requires pos + 8 <= |ip|
    ensures HeaderAt(ip, kind, pos, len) <==> len == ExtensionLen(ip, kind, pos)
  {
  }

  /** A chain leads the walk to its end. */
  lemma {:induction false} ChainWalked(ip: seq<Octet>, kinds: seq<nat>, starts: seq<nat>, kind: nat, pos: nat)
    requires Chain(ip, kinds, starts, kind, pos)
    ensures WalkFrom(ip, kind, pos) == Transport(kinds[|kinds| - 1], starts[|kinds| - 1])
    decreases |kinds|
  {
    hide HeaderAt, ExtensionLen;
    if |kinds| > 1 {
      var (k, s) := (kinds[1..], starts[1..]);
      assert Leads(ip, kinds[0], starts[0], kinds[1], starts[1]);
      LengthIs(ip, kind, pos, starts[1] - pos);
      assert WalkFrom(ip, kind, pos) == WalkFrom(ip, kinds[1], starts[1]);
      hide Leads, WalkFrom;
      forall i | 0 <= i < |k| - 1
        ensures Leads(ip, k[i], s[i], k[i + 1], s[i + 1])
      {
        assert k[i] == kinds[i + 1] && s[i] == starts[i + 1] && k[i + 1] == kinds[i + 2] && s[i + 1] == starts[i + 2];
      }
      ChainWalked(ip, k, s, kinds[1], starts[1]);
    }
  }

  lemma {:induction false} WalkChained(ip: seq<Octet>, kind: nat, pos: nat) returns (kinds: seq<nat>, starts: seq<nat>)
    requires WalkFrom(ip, kind, pos).Transport?
    ensures Chain(ip, kinds, starts, kind, pos)
    decreases |ip| - pos
  {
    hide HeaderAt, ExtensionLen;
    if IsExtension(kind) {
      var next := pos + ExtensionLen(ip, kind, pos);
      var k, s := WalkChained(ip, ip[pos], next);
      kinds, starts := [kind] + k, [pos] + s;
      LengthIs(ip, kind, pos, next - pos);
      assert Leads(ip, kind, pos, k[0], s[0]);
      hide Leads, WalkFrom;
      forall i | 0 <= i < |kinds| - 1
        ensures Leads(ip, kinds[i], starts[i], kinds[i + 1], starts[i + 1])
      {
        if i > 0 {
          assert kinds[i] == k[i - 1] && starts[i] == s[i - 1];
        }
      }
    } else {
      kinds, starts := [kind], [pos];
    }
  }

  /** The transport header is found if and only if a chain of extension headers leads to it. */
  lemma {:induction false} WalkIff(ip: seq<Octet>, nh: nat, pos: nat)
    requires |ip| >= 40
    ensures WalkFrom(ip, ip[6], 40) == Transport(nh, pos)
            <==> exists kinds, starts :: Chain(ip, kinds, starts, ip[6], 40) && kinds[|kinds| - 1] == nh && starts[|kinds| - 1] == pos
  {
    hide WalkFrom;
    if WalkFrom(ip, ip[6], 40) == Transport(nh, pos) {
      var kinds, starts := WalkChained(ip, ip[6], 40);
      ChainWalked(ip, kinds, starts, ip[6], 40);
    }
    if kinds, starts :| Chain(ip, kinds, starts, ip[6], 40) && kinds[|kinds| - 1] == nh && starts[|kinds| - 1] == pos {
      ChainWalked(ip, kinds, starts, ip[6], 40);
    }
  }

  // ---- Unencrypted ESP ----

  /** Octets 1 to `n`. */
  function Padding(n: Octet): (s: seq<Octet>)
    ensures |s| == n as nat && forall i | 0 <= i < |s| :: s[i] as nat == i + 1
  {
    seq(n, i requires 0 <= i < n => i + 1)
  }

  /** The payload is a whole packet of the protocol named. */
  predicate Whole(nh: nat, payload: seq<Octet>) {
    match nh
    case 41 => |payload| >= 40 && 0x60 <= payload[0] <= 0x6F && 40 + Word(payload, 4) <= |payload|
    case 4 => |payload| >= 20 && 0x40 <= payload[0] <= 0x4F
    case 6 => |payload| >= 20 && payload[12] >= 0x50
    case 17 => |payload| >= 8 && Word(payload, 4) == |payload|
    case 58 => |payload| >= 4
    case 59 => true
    case _ => false
  }

  /** SPI and sequence number, payload, padding, its length, the next header, and a check value of
      `icv` octets. */
  ghost predicate Unsealed(esp: seq<Octet>, icv: nat, nh: Octet, payload: seq<Octet>) {
    Whole(nh, payload)
    && exists head: seq<Octet>, n: Octet, check: seq<Octet> :: |head| == 8 && |check| == icv && esp == head + payload + Padding(n) + [n, nh] + check
  }

  lemma {:induction false} WholeIs(nh: nat, payload: seq<Octet>)
    ensures Whole(nh, payload) <==> PlausibleInner(nh, payload)
  {
  }

  /** What is built is recognised and taken apart. */
  lemma {:induction false} BuiltRead(esp: seq<Octet>, icv: nat, nh: Octet, payload: seq<Octet>)
    requires Unsealed(esp, icv, nh, payload)
    ensures PlausibleIcv(esp, icv) && EspInner(esp, icv) == (nh as nat, payload)
  {
    hide Whole, PlausibleInner;
    WholeIs(nh, payload);
    var head: seq<Octet>, n: Octet, check: seq<Octet> :| |head| == 8 && |check| == icv && esp == head + payload + Padding(n) + [n, nh] + check;
    var end := |esp| - icv;
    assert esp[end - 2] == n && esp[end - 1] == nh;
    assert esp[end - 2 - n as nat..end - 2] == Padding(n);
    assert esp[8..end - 2 - n as nat] == payload;
  }

  /** And what is recognised was built so. */
  lemma {:induction false} ReadBuilt(esp: seq<Octet>, icv: nat)
    requires PlausibleIcv(esp, icv)
    ensures EspInner(esp, icv).0 < 256 && Unsealed(esp, icv, EspInner(esp, icv).0, EspInner(esp, icv).1)
  {
    hide Whole, PlausibleInner;
    var end := |esp| - icv;
    var (n, nh, payload) := (esp[end - 2], esp[end - 1], EspInner(esp, icv).1);
    WholeIs(nh, payload);
    assert esp[end - 2 - n as nat..end - 2] == Padding(n);
    assert esp == esp[..8] + payload + Padding(n) + [n, nh] + esp[end..];
  }

  lemma {:induction false} FirstIcvFrom(esp: seq<Octet>, k: nat)
    requires k <= |ICV_LENGTHS|
    ensures var r := FirstIcv(esp, k);
            if r.Some? then exists i :: k <= i < |ICV_LENGTHS| && ICV_LENGTHS[i] == r.value && forall j | k <= j < i :: !PlausibleIcv(esp, ICV_LENGTHS[j])
            else forall j | k <= j < |ICV_LENGTHS| :: !PlausibleIcv(esp, ICV_LENGTHS[j])
    decreases |ICV_LENGTHS| - k
  {
    hide PlausibleIcv;
    if k < |ICV_LENGTHS| {
      FirstIcvFrom(esp, k + 1);
    }
  }

  /** ESP is looked into exactly if it is made of a whole packet and default padding under a check
      value of 12, 16, 24, 32 or no octets, tried in this order. */
  lemma {:induction false} EspSeen(esp: seq<Octet>)
    ensures var (lengths, r) := ([12, 16, 24, 32, 0], FirstIcv(esp, 0));
            match r
            case Some(icv) =>
              && EspInner(esp, icv).0 < 256 && Unsealed(esp, icv, EspInner(esp, icv).0, EspInner(esp, icv).1)
              && exists i :: 0 <= i < 5 && lengths[i] == icv && forall j, nh, payload | 0 <= j < i :: !Unsealed(esp, lengths[j], nh, payload)
            case None => forall j, nh, payload | 0 <= j < 5 :: !Unsealed(esp, lengths[j], nh, payload)
  {
    hide Unsealed, PlausibleIcv, EspInner;
    FirstIcvFrom(esp, 0);
    var lengths := [12, 16, 24, 32, 0];
    forall j, nh, payload | 0 <= j < 5 && Unsealed(esp, lengths[j], nh, payload)
      ensures PlausibleIcv(esp, lengths[j])
    {
      BuiltRead(esp, lengths[j], nh, payload);
    }
    if FirstIcv(esp, 0).Some? {
      ReadBuilt(esp, FirstIcv(esp, 0).value);
    }
  }
}
