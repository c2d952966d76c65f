/**
 What the matchers are documented to do, read off the packet itself, against what the
 generated code does with its classified view: unsupported protocols are 0 there, some
 extension headers are not walked or are walked wrongly, and some operands are cut off. For
 every matcher the two agree exactly under a condition on packet and payload.
 */
module Promise {
  import opened Bits
  import opened Packet
  import opened Chain
  import opened Prefix
  import opened Ipv6Walk
  import opened Reference
  import Bpf
  import Matchers

  const NO_L4 := -1

  /**
   What is on the wire, whatever the kernel shows of it: network protocol, transport protocol or
   none, its offset, the extension headers in front of it, and whether the transport header is in
   this packet rather than in an earlier fragment.
   */
  datatype Wire = Wire(l3: nat, l4: int, l4off: nat, headers: seq<int>, whole: bool)

  // Numbers as the standards have them: ethertypes as a little-endian host loads them.
  const ETHERTYPE_IP4 := 0x0008
  const ETHERTYPE_IP6 := 0xDD86

  /** The extension headers the program knows: hop-by-hop, routing, fragment, authentication, destination, mobility. */
  predicate Extension(h: int) {
    h in {0, 43, 44, 51, 60, 135}
  }

  predicate SupportedL3(l3: nat) { l3 == ETHERTYPE_IP4 || l3 == ETHERTYPE_IP6 }
  predicate SupportedL4(l4: int) { l4 in {1, 6, 17, 58} }

  /** An IPv4 packet that starts its datagram. */
  predicate FirstPart4(env: Env, l3off: nat)
    requires InData(env, l3off, 20)
  {
    env.data[l3off + 6] % 32 == 0 && env.data[l3off + 7] == 0
  }

  /** An IPv6 fragment header of the first fragment (section 4.5 of RFC 8200: 13 bits of offset). */
  predicate FirstPart6(env: Env, off: nat) {
    InData(env, off, 4) ==> env.data[off + 2] == 0 && env.data[off + 3] < 8
  }

  /** The chain of extension headers to its end, by section 4 of RFC 8200. Behind the header of a
      later fragment there are no headers. */
  function HeaderChain(env: Env, h: byte, off: nat): (w: Wire)
    ensures w.l3 == ETHERTYPE_IP6
    decreases |env.data| - off
  {
    if !Extension(h) then Wire(ETHERTYPE_IP6, h, off, [], true)
    else if !InData(env, off, 2) then Wire(ETHERTYPE_IP6, NO_L4, off, [], true)
    else if h == 44 && !FirstPart6(env, off) then
      Wire(ETHERTYPE_IP6, if Extension(env.data[off]) then NO_L4 else env.data[off], off + 8, [h], false)
    else
      var w := HeaderChain(env, env.data[off], off + RfcLen(h, env.data[off + 1]));
      w.(headers := [h] + w.headers)
  }

  function WireOf(env: Env, proto: nat, l3off: nat): Wire {
    if proto == ETHERTYPE_IP4 && InData(env, l3off, 20) then
      Wire(ETHERTYPE_IP4, env.data[l3off + 9], l3off + env.data[l3off] % 16 * 4, [], FirstPart4(env, l3off))
    else if proto == ETHERTYPE_IP6 && InData(env, l3off, 40) then
      HeaderChain(env, env.data[l3off + 6], l3off + 40)
    else Wire(proto, NO_L4, 0, [], true)
  }

  // ---- where the program looks ----

  /**
   The walker stays on the chain: at most n headers, all of them shown by the kernel, fragment
   headers with a clear reserved byte, and nothing taken for a header behind a later fragment's.
   */
  predicate OnTrack(env: Env, h: byte, off: nat, n: nat)
    decreases n
  {
    !Extension(h) ||
    (n > 0 && SliceOk(env, off, 2)
     && (h == 44 ==> env.data[off + 1] == 0 && (FirstPart6(env, off) || !Extension(env.data[off])))
     && OnTrack(env, env.data[off], off + ExtLen(h, env.data[off + 1]), n - 1))
  }

  /** On track, the walker finds what is there. */
  lemma {:induction false} TrackedWalk(env: Env, h: byte, off: nat, n: nat)
    requires OnTrack(env, h, off, n)
    ensures var t, w := Trace(env, h, off, n), HeaderChain(env, h, off);
            t.types == w.headers && t.proto == w.l4 && t.off == w.l4off
    decreases n
  {
    if IsExt(h) {
      TrackedWalk(env, env.data[off], off + ExtLen(h, env.data[off + 1]), n - 1);
    }
  }

  function FirstHeader(env: Env, v: View): byte
    requires ValidView(env, v) && v.l3 == IP6
  {
    env.data[v.l3off + NEXTHDR_OFF]
  }

  /** IPv6 packets whose first header is one the prologue does not hand to the walker. */
  predicate Skipped(env: Env, v: View)
    requires ValidView(env, v)
  {
    v.l3 == ETHERTYPE_IP6 && FirstHeader(env, v) in {43, 44, 51}
  }

  /** IPv6 packets on which the walker loses the chain. */
  predicate Stray(env: Env, v: View)
    requires ValidView(env, v)
  {
    v.l3 == ETHERTYPE_IP6 && !Skipped(env, v) && !OnTrack(env, FirstHeader(env, v), v.l3off + 40, 6)
  }

  /** IPv6 packets on which the plain walker is not shown the start of the transport header. */
  predicate CutShort(env: Env, record: bool, v: View)
    requires ValidView(env, v)
  {
    v.l3 == IP6 && !record && IsExt(FirstHeader(env, v)) && !Walk(env, v.l3off, MAX_CHAIN).readable
  }

  /** The program gets to see the transport protocol where it is. */
  predicate Visible(env: Env, record: bool, v: View, w: Wire)
    requires ValidView(env, v)
  {
    SupportedL4(w.l4) && !Skipped(env, v) && !Stray(env, v) && !CutShort(env, record, v)
  }

  /** How the program's view comes from what is on the wire. */
  ghost predicate Classified(env: Env, record: bool, v: View, w: Wire)
    requires ValidView(env, v)
  {
    && v.l3 == (if SupportedL3(w.l3) then w.l3 else 0)
    && (v.l3 == 0 ==> w.l4 == NO_L4)
    && (Visible(env, record, v, w) ==> v.l4 == w.l4 && v.l4off == w.l4off)
    && (!Visible(env, record, v, w) && !Stray(env, v) ==> v.l4 == 0)
    && (record && !Stray(env, v) ==>
          forall h :: Extension(h) ==> (Bit(v.eh, EhBit(h)) <==> h in w.headers && !Skipped(env, v)))
  }

  // ---- the prologue classifies every packet this way ----

  lemma MaskByteBits(m: nat, k: nat)
    requires k < 6
    ensures Bit(m % TWO8, k) == Bit(m, k)
  {
    Pow2Small();
    Pow2Mono(k, 5);
    Matchers.LowDigits(m % TWO8, m / TWO8, Pow2(k));
  }

  lemma WalkedMask(env: Env, l3off: nat, h: int)
    requires InData(env, l3off, IPV6_HDR_LEN) && IsExt(h)
    ensures var t := Walk(env, l3off, MAX_CHAIN); Bit(HeaderMask(t.types) % TWO8, EhBit(h)) <==> h in t.types
  {
    hide Bit, MaskFrom, Trace;
    MaskByteBits(HeaderMask(Walk(env, l3off, MAX_CHAIN).types), EhBit(h));
    MaskIsTheSetOfHeaders(env, env.data[l3off + NEXTHDR_OFF], l3off + IPV6_HDR_LEN, MAX_CHAIN, h);
  }

  /** A first header that is no extension header is the transport protocol. */
  lemma PlainWalk(env: Env, l3off: nat)
    requires InData(env, l3off, IPV6_HDR_LEN) && !IsExt(env.data[l3off + NEXTHDR_OFF])
    ensures var t := Walk(env, l3off, MAX_CHAIN);
            t.types == [] && t.proto == env.data[l3off + NEXTHDR_OFF] && t.off == l3off + IPV6_HDR_LEN
  {
  }

  lemma NoHeaderBits(h: int)
    ensures !Bit(0, EhBit(h))
  {
    ZeroHasNoBits(EhBit(h));
  }

  lemma ParseFromClassified(env: Env, record: bool, proto: nat, l3off: nat, ifindex: nat, size: nat)
    requires ifindex < TWO32 && size < TWO64 && ParseFrom(env, record, proto, l3off, ifindex, size).Parsed?
    ensures var v := ParseFrom(env, record, proto, l3off, ifindex, size).v;
            ValidView(env, v) && Classified(env, record, v, WireOf(env, proto, l3off))
  {
    hide Bit, HeaderMask, Trace, HeaderChain, OnTrack;
    forall h | IsExt(h)
      ensures !Bit(0, EhBit(h))
      ensures proto == IP6 && InData(env, l3off, IPV6_HDR_LEN) ==>
                var t := Walk(env, l3off, MAX_CHAIN); Bit(HeaderMask(t.types) % TWO8, EhBit(h)) <==> h in t.types
    {
      NoHeaderBits(h);
      if proto == IP6 && InData(env, l3off, IPV6_HDR_LEN) {
        WalkedMask(env, l3off, h);
      }
    }
    if proto == IP6 {
      var first := env.data[l3off + NEXTHDR_OFF];
      if !IsExt(first) {
        PlainWalk(env, l3off);
        PlainChain(env, first, l3off + IPV6_HDR_LEN);
      } else if OnTrack(env, first, l3off + IPV6_HDR_LEN, MAX_CHAIN) {
        TrackedWalk(env, first, l3off + IPV6_HDR_LEN, MAX_CHAIN);
      }
    }
  }

  lemma PlainChain(env: Env, h: byte, off: nat)
    requires !IsExt(h)
    ensures HeaderChain(env, h, off) == Wire(IP6, h, off, [], true) && OnTrack(env, h, off, 6)
  {
  }

  /** The network protocol of the packet: its ethertype, or the version in its first byte. */
  function PacketL3(hook: Hook, env: Env): nat
    requires IsCgroup(hook) || InData(env, 0, ETH_HLEN)
  {
    if !IsCgroup(hook) then env.data[12] + TWO8 * env.data[13]
    else if env.data == [] then 0
    else if env.data[0] / 16 == 4 then ETHERTYPE_IP4
    else if env.data[0] / 16 == 6 then ETHERTYPE_IP6
    else 0
  }

  /** The network protocol of a socket's family: AF_INET or AF_INET6. */
  function FamilyL3(family: nat): nat {
    if family == 2 then ETHERTYPE_IP4 else if family == 10 then ETHERTYPE_IP6 else 0
  }

  function L3Start(hook: Hook): nat {
    if hook == CgroupIngress || hook == CgroupEgress then 0 else 14
  }

  /** Programs on cgroups go by the socket's family, which tells the packet's version unless an IPv6
      socket takes IPv4 packets. */
  predicate FamilyFits(hook: Hook, env: Env, arg: map<int, nat>)
    requires ArgOk(hook, arg)
  {
    IsCgroup(hook) ==> FamilyL3(arg[SKB_FAMILY]) == PacketL3(hook, env)
  }

  /**
   Every packet let through is classified from what is on the wire; a cgroup program takes it for
   a packet of its own network protocol if and only if the socket's family fits.
   */
  lemma ParsedIsClassified(hook: Hook, record: bool, env: Env, arg: map<int, nat>)
    requires ArgOk(hook, arg) && Parse(hook, record, env, arg).Parsed?
    ensures (IsCgroup(hook) || InData(env, 0, ETH_HLEN)) && ValidView(env, Parse(hook, record, env, arg).v)
    ensures FamilyFits(hook, env, arg) ==>
              Classified(env, record, Parse(hook, record, env, arg).v, WireOf(env, PacketL3(hook, env), L3Start(hook)))
    ensures FamilyFits(hook, env, arg) <==>
              Parse(hook, record, env, arg).v.l3 == if SupportedL3(PacketL3(hook, env)) then PacketL3(hook, env) else 0
  {
    hide WireOf, Classified, ValidView, PacketSize, FindL4, Visible, Stray;
    var proto := if IsCgroup(hook) then FamilyProto(arg[SKB_FAMILY]) else Le16(env, 12);
    ParseFromClassified(env, record, proto, L3Start(hook), Interface(hook, arg), PacketSize(hook, arg));
  }

  /** The argument the kernel passes with a packet: bounds of the data, or its length. */
  predicate Given(hook: Hook, env: Env, arg: map<int, nat>)
    requires ArgOk(hook, arg)
  {
    if hook == Xdp then arg[4] == arg[0] + |env.data| else arg[0] == |env.data|
  }

  /**
   What else the program sees of a packet: where its network header is, the interface it came in on,
   and the size of its frame, of which cgroup programs are not shown the first 14 bytes.
   */
  lemma ParsedFields(hook: Hook, record: bool, env: Env, arg: map<int, nat>)
    requires ArgOk(hook, arg) && Parse(hook, record, env, arg).Parsed?
    ensures var v := Parse(hook, record, env, arg).v;
            && v.l3off == L3Start(hook) && v.ifindex == (if hook == Xdp then arg[12] else arg[40])
            && (Given(hook, env, arg) ==> v.size == |env.data| + if L3Start(hook) == 0 then 14 else 0)
  {
    hide FindL4;
    if hook == Xdp && Given(hook, env, arg) {
      ModNoop(|env.data|, TWO64);
    }
  }

  /** The headers that the program has to read, in order, are shown by the kernel. */
  predicate Shown(env: Env, record: bool, l3: nat, l3off: nat) {
    SupportedL3(l3) ==>
      && SliceOk(env, l3off, if l3 == ETHERTYPE_IP4 then 20 else 40)
      && var v, w := View(l3, 0, l3off, 0, 0, 0, 0), WireOf(env, l3, l3off);
         Visible(env, record, v, w) ==> SliceOk(env, w.l4off, if w.l4 == 6 then 20 else 8)
  }

  /**
   The prologue gives up exactly on packets of which the kernel does not show a header: no dynamic
   pointer, no link layer header, no header of a supported network or transport protocol.
   */
  lemma UnreadableExactly(hook: Hook, record: bool, env: Env, arg: map<int, nat>)
    requires ArgOk(hook, arg)
    ensures !env.dynptrOk || (L3Start(hook) == 14 && !SliceOk(env, 0, 14)) ==> Parse(hook, record, env, arg).Rejected?
    ensures env.dynptrOk && (L3Start(hook) == 14 ==> SliceOk(env, 0, 14)) && FamilyFits(hook, env, arg) ==>
              var l3, off := PacketL3(hook, env), L3Start(hook);
              (SupportedL3(l3) && SliceOk(env, off, L3Len(l3)) ==> !Stray(env, View(l3, 0, off, 0, 0, 0, 0))) ==>
                (Parse(hook, record, env, arg).Rejected? <==> !Shown(env, record, l3, off))
  {
    if env.dynptrOk && (L3Start(hook) == 14 ==> SliceOk(env, 0, 14)) && FamilyFits(hook, env, arg) {
      var l3, off := PacketL3(hook, env), L3Start(hook);
      hide ParseFrom, Shown, Stray, PacketSize;
      if SupportedL3(l3) && SliceOk(env, off, L3Len(l3)) ==> !Stray(env, View(l3, 0, off, 0, 0, 0, 0)) {
        ShownParses(env, record, l3, off, Interface(hook, arg), PacketSize(hook, arg));
      }
    }
  }

  lemma ShownParses(env: Env, record: bool, l3: nat, l3off: nat, ifindex: nat, size: nat)
    requires SupportedL3(l3) && SliceOk(env, l3off, L3Len(l3)) ==> !Stray(env, View(l3, 0, l3off, 0, 0, 0, 0))
    ensures ParseFrom(env, record, l3, l3off, ifindex, size).Rejected? <==> !Shown(env, record, l3, l3off)
  {
    hide Trace, HeaderChain, OnTrack, HeaderMask;
    if l3 == IP6 && SliceOk(env, l3off, L3Len(l3)) {
      var first := env.data[l3off + NEXTHDR_OFF];
      if !IsExt(first) {
        PlainWalk(env, l3off);
        PlainChain(env, first, l3off + IPV6_HDR_LEN);
      } else if OnTrack(env, first, l3off + IPV6_HDR_LEN, MAX_CHAIN) {
        TrackedWalk(env, first, l3off + IPV6_HDR_LEN, MAX_CHAIN);
      }
    }
  }

  /** An IPv4 packet on an IPv6 socket is taken for an IPv6 packet. */
  lemma MappedAddressIsMisread(hook: Hook, record: bool, env: Env, arg: map<int, nat>)
    requires IsCgroup(hook) && ArgOk(hook, arg) && arg[SKB_FAMILY] == AF_INET6
    requires Parse(hook, record, env, arg).Parsed? && env.data != [] && env.data[0] / 16 == 4
    ensures var v := Parse(hook, record, env, arg).v;
            ValidView(env, v) && v.l3 == IP6 && PacketL3(hook, env) == IP4
            && forall p :: !Holds(env, 0, v, Matcher(Ip4Proto, Eq, [p]))
  {
    hide FindL4;
    ParsedIsClassified(hook, record, env, arg);
  }

  // ---- the documented meaning ----

  /** Operators that mean something for the matcher. */
  predicate OpMeant(m: Matcher) {
    m.op == Eq || m.op == Ne || (m.op == Range && (m.kind == MetaSport || m.kind == MetaDport))
  }

  predicate Asked(op: MatcherOp, equal: bool) {
    if op == Ne then !equal else equal
  }

  /** Payloads hold numbers as a little-endian host does. */
  function Host16(p: seq<byte>, i: nat): nat
    requires |p| >= 2 * i + 2
  {
    p[2 * i] + TWO8 * p[2 * i + 1]
  }

  function Host32(p: seq<byte>): nat
    requires |p| >= 4
  {
    p[0] + TWO8 * p[1] + TWO16 * p[2] + TWO24 * p[3]
  }

  /** Packets hold them with the most significant byte first. */
  function Net16(env: Env, off: nat): nat
    requires InData(env, off, 2)
  {
    TWO8 * env.data[off] + env.data[off + 1]
  }

  /** The packet carries TCP or UDP ports. */
  predicate PortsOn(env: Env, w: Wire) {
    (w.l4 == 6 || w.l4 == 17) && w.whole && InData(env, w.l4off, 4)
  }

  predicate IcmpOn(env: Env, w: Wire, kind: MatcherKind) {
    w.l4 == (if kind == IcmpType || kind == IcmpCode then 1 else 58) && w.whole && InData(env, w.l4off, 2)
  }

  predicate IsIcmp(kind: MatcherKind) {
    kind == IcmpType || kind == IcmpCode || kind == Icmpv6Type || kind == Icmpv6Code
  }

  predicate IsPort(kind: MatcherKind) {
    kind == MetaSport || kind == MetaDport
  }

  const NO_FIELD := -1

  /** The source port comes first. */
  function PortAt(env: Env, l4off: nat, kind: MatcherKind): nat
    requires InData(env, l4off, 4)
  {
    if kind == MetaSport then Net16(env, l4off) else Net16(env, l4off + 2)
  }

  /** A port of the packet, if it has one. */
  function RealPort(env: Env, w: Wire, kind: MatcherKind): int
    requires IsPort(kind)
  {
    if PortsOn(env, w) then PortAt(env, w.l4off, kind) else NO_FIELD
  }

  /** The two bytes the program takes for the port; 0 is no port to it. */
  function SeenPort(env: Env, v: View, kind: MatcherKind): int
    requires ValidView(env, v) && IsPort(kind)
  {
    if (v.l4 == 6 || v.l4 == 17) && PortAt(env, v.l4off, kind) != 0 then PortAt(env, v.l4off, kind) else NO_FIELD
  }

  /** Single ports are in network order in the payload, bounds of a range are not. */
  predicate PortPasses(m: Matcher, port: int)
    requires IsPort(m.kind) && WellFormed(m)
  {
    if m.op == Range then Host16(m.payload, 0) <= port <= Host16(m.payload, 1)
    else Asked(m.op, port == TWO8 * m.payload[0] + m.payload[1])
  }

  /** The port on the wire passes. */
  predicate PortCarried(env: Env, w: Wire, m: Matcher)
    requires IsPort(m.kind) && WellFormed(m)
  {
    var port := RealPort(env, w, m.kind);
    port != NO_FIELD && PortPasses(m, port)
  }

  /** What the program takes for the port passes. */
  predicate PortRead(env: Env, v: View, m: Matcher)
    requires ValidView(env, v) && IsPort(m.kind) && WellFormed(m)
  {
    var port := SeenPort(env, v, m.kind);
    port != NO_FIELD && PortPasses(m, port)
  }

  function IcmpField(env: Env, l4off: nat, kind: MatcherKind): byte
    requires InData(env, l4off, 2)
  {
    if kind == IcmpType || kind == Icmpv6Type then env.data[l4off] else env.data[l4off + 1]
  }

  /** The type or code of the packet, if it has one. */
  function RealIcmp(env: Env, w: Wire, kind: MatcherKind): int
    requires IsIcmp(kind)
  {
    if IcmpOn(env, w, kind) then IcmpField(env, w.l4off, kind) else NO_FIELD
  }

  function SeenIcmp(env: Env, v: View, kind: MatcherKind): int
    requires ValidView(env, v) && IsIcmp(kind)
  {
    if v.l4 == (if kind == IcmpType || kind == IcmpCode then 1 else 58) then IcmpField(env, v.l4off, kind) else NO_FIELD
  }

  predicate IcmpCarried(env: Env, w: Wire, m: Matcher)
    requires IsIcmp(m.kind) && WellFormed(m)
  {
    RealIcmp(env, w, m.kind) != NO_FIELD && Asked(m.op, RealIcmp(env, w, m.kind) == m.payload[0])
  }

  predicate IcmpRead(env: Env, v: View, m: Matcher)
    requires ValidView(env, v) && IsIcmp(m.kind) && WellFormed(m)
  {
    SeenIcmp(env, v, m.kind) != NO_FIELD && Asked(m.op, SeenIcmp(env, v, m.kind) == m.payload[0])
  }

  /** The address in an IPv4 header, in an IPv4 packet. */
  predicate Ip4On(env: Env, v: View, w: Wire) {
    w.l3 == ETHERTYPE_IP4 && InData(env, v.l3off, 20)
  }

  /** When a matcher holds, according to its documentation: about the packet, not the program's view. */
  predicate Promised(env: Env, mark: nat, v: View, w: Wire, m: Matcher)
    requires ValidView(env, v) && WellFormed(m)
  {
    match m.kind
    case MetaIface => Asked(m.op, v.ifindex == Host32(m.payload))
    case MetaL3Proto => Asked(m.op, w.l3 == m.payload[1] + TWO8 * m.payload[0])
    case MetaL4Proto => Asked(m.op, w.l4 == m.payload[0])
    case MetaSport => PortCarried(env, w, m)
    case MetaDport => PortCarried(env, w, m)
    case MetaMark => Asked(m.op, mark == Host32(m.payload))
    case Ip4Saddr => Ip4On(env, v, w) && Asked(m.op, env.data[v.l3off + 12..v.l3off + 16] == m.payload[..4])
    case Ip4Daddr => Ip4On(env, v, w) && Asked(m.op, env.data[v.l3off + 16..v.l3off + 20] == m.payload[..4])
    case Ip4Snet =>
      Ip4On(env, v, w) && Asked(m.op, InNetwork(env.data[v.l3off + 12..v.l3off + 16], m.payload[4..8], Host32(m.payload)))
    case Ip4Dnet =>
      Ip4On(env, v, w) && Asked(m.op, InNetwork(env.data[v.l3off + 16..v.l3off + 20], m.payload[4..8], Host32(m.payload)))
    case Ip4Proto => Ip4On(env, v, w) && Asked(m.op, env.data[v.l3off + 9] == m.payload[0])
    case Ip6Nexthdr =>
      w.l3 == ETHERTYPE_IP6 &&
      Asked(m.op, if Extension(m.payload[0]) then m.payload[0] in w.headers else w.l4 == m.payload[0])
    case _ => IcmpCarried(env, w, m)
  }

  /** The first `prefixlen` bits of an address are those of a network, bytes in order, top bits first. */
  predicate InNetwork(a: Addr, net: Addr, prefixlen: nat) {
    forall i :: 0 <= i < 32 && i < prefixlen ==> (Bit(a[i / 8], 7 - i % 8) <==> Bit(net[i / 8], 7 - i % 8))
  }

  lemma InNetworkIsShared(a: Addr, net: Addr, prefixlen: nat)
    requires prefixlen <= 32
    ensures InNetwork(a, net, prefixlen) <==> SharePrefix(a, net, prefixlen)
  {
    assert forall i :: 0 <= i < 32 ==> AddrBit(a, i) == Bit(a[i / 8], 7 - i % 8) && AddrBit(net, i) == Bit(net[i / 8], 7 - i % 8);
  }

  /**
   The protocol number the matcher asks for reads the same on the wire and in the view: the program
   sees the protocol; or it sees 0, or what stands where it has strayed to, and the matcher asks
   neither for that nor for the protocol.
   */
  predicate L4Unaffected(env: Env, record: bool, v: View, w: Wire, number: nat)
    requires ValidView(env, v)
  {
    Visible(env, record, v, w) ||
    var seen := if Stray(env, v) then v.l4 else 0;
    seen == w.l4 || (number != w.l4 && number != seen)
  }

  /**
   The transport field the matcher asks for reads the same: the program reads it where it is, and
   `usable` says that its value is not mistaken for a missing one; or the field is in an earlier
   fragment, or not seen, and does not pass; or it is looked for in the wrong place, with the same
   answer.
   */
  predicate FieldUnaffected(env: Env, record: bool, v: View, w: Wire, carried: bool, read: bool, usable: bool)
    requires ValidView(env, v)
  {
    if Visible(env, record, v, w) then (if w.whole then carried ==> usable else !read)
    else if Stray(env, v) then carried == read
    else !carried
  }

  /** The packets and payloads on which the shortcuts of the generated code do not show. */
  predicate Unaffected(env: Env, record: bool, mark: nat, v: View, w: Wire, m: Matcher)
    requires ValidView(env, v) && WellFormed(m)
  {
    match m.kind
    case MetaIface =>
      (m.op == Eq) == (v.ifindex < 0x1_0000 || (Host32(m.payload) != v.ifindex && Host32(m.payload) != v.ifindex % 0x1_0000))
    case MetaL3Proto =>
      var number := m.payload[1] + TWO8 * m.payload[0];
      (m.op == Eq) == (SupportedL3(w.l3) || w.l3 == 0 || (number != w.l3 && number != 0))
    case MetaL4Proto => L4Unaffected(env, record, v, w, m.payload[0])
    case MetaSport =>
      FieldUnaffected(env, record, v, w, PortCarried(env, w, m), PortRead(env, v, m),
                      PortsOn(env, w) && Net16(env, w.l4off) != 0)
    case MetaDport =>
      FieldUnaffected(env, record, v, w, PortCarried(env, w, m), PortRead(env, v, m),
                      PortsOn(env, w) && Net16(env, w.l4off + 2) != 0)
    case MetaMark => Host32(m.payload) < 0x8000_0000 || mark != Host32(m.payload)
    case Ip6Nexthdr =>
      v.l3 == ETHERTYPE_IP6 ==>
        if !Extension(m.payload[0]) then L4Unaffected(env, record, v, w, m.payload[0])
        else if Stray(env, v) then Bit(v.eh, EhBit(m.payload[0])) == (m.payload[0] in w.headers)
        else !Skipped(env, v) || m.payload[0] !in w.headers
    case _ =>
      IsIcmp(m.kind) ==> FieldUnaffected(env, record, v, w, IcmpCarried(env, w, m), IcmpRead(env, v, m), true)
  }

  /** The generated tests, in the terms of the packet: fields of the view, bytes and payload. */
  lemma MetaHolds(env: Env, mark: nat, v: View, m: Matcher)
    requires ValidView(env, v) && WellFormed(m) && OpMeant(m)
    ensures m.kind == MetaIface ==> Holds(env, mark, v, m) == (v.ifindex % TWO16 == Host32(m.payload))
    ensures m.kind == MetaL3Proto ==> Holds(env, mark, v, m) == (v.l3 == m.payload[1] + TWO8 * m.payload[0])
    ensures m.kind == MetaL4Proto ==> Holds(env, mark, v, m) == Asked(m.op, v.l4 == m.payload[0])
    ensures m.kind == MetaMark ==>
              Holds(env, mark, v, m) == Asked(m.op, mark == Host32(m.payload) && Host32(m.payload) < 0x8000_0000)
    ensures m.kind == Ip6Nexthdr ==>
              Holds(env, mark, v, m) == (v.l3 == ETHERTYPE_IP6 &&
                Asked(m.op, if Extension(m.payload[0]) then Bit(v.eh, EhBit(m.payload[0])) else v.l4 == m.payload[0]))
  {
    hide Bit, ValidView, EhBit;
    if m.kind == MetaL3Proto {
      Swapped(m.payload[0], m.payload[1], 0, 0);
    }
  }

  lemma IcmpReads(env: Env, mark: nat, v: View, m: Matcher)
    requires ValidView(env, v) && WellFormed(m) && OpMeant(m) && IsIcmp(m.kind)
    ensures Holds(env, mark, v, m) == IcmpRead(env, v, m)
  {
  }

  predicate IsIp4(kind: MatcherKind) {
    kind in {Ip4Saddr, Ip4Daddr, Ip4Snet, Ip4Dnet, Ip4Proto}
  }

  lemma Ip4Holds(env: Env, mark: nat, v: View, w: Wire, m: Matcher)
    requires ValidView(env, v) && WellFormed(m) && OpMeant(m) && IsIp4(m.kind)
    requires v.l3 == if SupportedL3(w.l3) then w.l3 else 0
    ensures Holds(env, mark, v, m) == Promised(env, mark, v, w, m)
  {
    if m.kind == Ip4Snet || m.kind == Ip4Dnet {
      NetHolds(env, mark, v, w, m);
    }
  }

  lemma PortReads(env: Env, mark: nat, v: View, m: Matcher)
    requires ValidView(env, v) && WellFormed(m) && OpMeant(m) && IsPort(m.kind)
    ensures Holds(env, mark, v, m) == PortRead(env, v, m)
  {
    if v.l4 == TCP || v.l4 == UDP {
      PortNumbers(env, v.l4off, m);
    }
    hide PortTest, PortPasses, PortAt, Le16;
  }

  /** The port as it is loaded, and as it is. */
  lemma PortNumbers(env: Env, l4off: nat, m: Matcher)
    requires InData(env, l4off, 4) && WellFormed(m) && OpMeant(m) && IsPort(m.kind)
    ensures var loaded := Le16(env, if m.kind == MetaSport then l4off else l4off + 2);
            && (loaded == 0 <==> PortAt(env, l4off, m.kind) == 0)
            && PortTest(m, loaded) == PortPasses(m, PortAt(env, l4off, m.kind))
  {
    var off := l4off + if m.kind == MetaSport then 0 else 2;
    Swapped(env.data[off], env.data[off + 1], m.payload[0], m.payload[1]);
  }

  lemma Swapped(a: byte, b: byte, x: byte, y: byte)
    ensures Bpf.Swap16(a + TWO8 * b) == 0x100 * a + b
    ensures a + TWO8 * b == x + TWO8 * y <==> 0x100 * a + b == 0x100 * x + y
    ensures a + TWO8 * b == 0 <==> 0x100 * a + b == 0
  {
  }

  lemma NetHolds(env: Env, mark: nat, v: View, w: Wire, m: Matcher)
    requires ValidView(env, v) && WellFormed(m) && OpMeant(m) && (m.kind == Ip4Snet || m.kind == Ip4Dnet)
    requires v.l3 == if SupportedL3(w.l3) then w.l3 else 0
    ensures Holds(env, mark, v, m) == Promised(env, mark, v, w, m)
  {
    assert U32(m.payload) == Host32(m.payload);
    if v.l3 == IP4 {
      InNetworkIsShared(AddrAt(env, v.l3off + (if m.kind == Ip4Snet then 12 else 16)), m.payload[4..8], U32(m.payload));
      hide InNetwork, SharePrefix;
    }
  }

  /**
   For every packet the prologue lets through and every matcher: the generated code keeps the
   documented meaning exactly where nothing is cut off, skipped, strayed from or unsupported.
   */
  lemma HoldsAsPromised(env: Env, record: bool, mark: nat, v: View, w: Wire, m: Matcher)
    requires ValidView(env, v) && WellFormed(m) && Classified(env, record, v, w) && OpMeant(m)
    requires m.kind == Ip6Nexthdr ==> record
    ensures Holds(env, mark, v, m) == Promised(env, mark, v, w, m) <==> Unaffected(env, record, mark, v, w, m)
  {
    if IsPort(m.kind) {
      PortReads(env, mark, v, m);
      hide Walk, PortPasses, Holds;
    } else if IsIcmp(m.kind) {
      IcmpReads(env, mark, v, m);
      hide Walk, IcmpField, Holds;
    } else if IsIp4(m.kind) {
      Ip4Holds(env, mark, v, w, m);
      hide Holds, Promised;
    } else {
      MetaHolds(env, mark, v, m);
      hide Walk, Bit, Holds, Host32;
      if m.kind == MetaIface && v.ifindex < TWO16 {
        ModNoop(v.ifindex, TWO16);
      }
    }
  }

  /**
   Operators that mean nothing for a matcher: interface and network protocol are tested for equality
   whatever the operator, every other test that has code for it takes it for `not`.
   */
  lemma OtherOperators(env: Env, mark: nat, v: View, m: Matcher)
    requires ValidView(env, v) && WellFormed(m) && OpKnown(m) && m.op != Eq && (IsPort(m.kind) ==> m.op != Range)
    ensures Holds(env, mark, v, m) == Holds(env, mark, v, m.(op := if m.kind == MetaIface || m.kind == MetaL3Proto then Eq else Ne))
  {
    hide Bit, Le16, U32, SharePrefix;
  }

  /** A rule whose matchers lose nothing matches exactly the packets its matchers promise. */
  lemma RuleAsPromised(env: Env, record: bool, mark: nat, v: View, w: Wire, ms: seq<Matcher>)
    requires ValidView(env, v) && Classified(env, record, v, w)
    requires forall m :: m in ms ==> WellFormed(m) && OpMeant(m) && (m.kind == Ip6Nexthdr ==> record)
    requires forall m :: m in ms ==> Unaffected(env, record, mark, v, w, m)
    ensures RuleMatches(env, mark, v, ms) <==> forall m :: m in ms ==> Promised(env, mark, v, w, m)
  {
    hide Holds, Promised, Unaffected, Classified, WellFormed, OpMeant;
    forall m | m in ms
      ensures Holds(env, mark, v, m) == Promised(env, mark, v, w, m)
    {
      HoldsAsPromised(env, record, mark, v, w, m);
    }
  }

  // ---- which packets keep every promise ----

  /** The program sees of the packet's protocols, headers, ports and types exactly what is there. */
  ghost predicate SeenAsIs(env: Env, record: bool, v: View, w: Wire)
    requires ValidView(env, v)
  {
    && v.l3 == w.l3 && v.l4 == w.l4
    && (forall kind :: IsPort(kind) ==> SeenPort(env, v, kind) == RealPort(env, w, kind))
    && (forall kind :: IsIcmp(kind) ==> SeenIcmp(env, v, kind) == RealIcmp(env, w, kind))
    && (record && v.l3 == ETHERTYPE_IP6 ==> forall h :: Extension(h) ==> (Bit(v.eh, EhBit(h)) <==> h in w.headers))
  }

  /** A matcher that asks for something in the packet. */
  predicate AsksPacket(record: bool, m: Matcher) {
    && WellFormed(m) && OpMeant(m) && m.kind != MetaIface && m.kind != MetaMark
    && (m.kind == MetaL3Proto ==> m.op == Eq) && (m.kind == Ip6Nexthdr ==> record)
  }

  predicate Kept(env: Env, mark: nat, v: View, w: Wire, m: Matcher)
    requires ValidView(env, v) && WellFormed(m)
  {
    Holds(env, mark, v, m) == Promised(env, mark, v, w, m)
  }

  lemma SeenKeeps(env: Env, record: bool, mark: nat, v: View, w: Wire, m: Matcher)
    requires ValidView(env, v) && Classified(env, record, v, w) && AsksPacket(record, m) && SeenAsIs(env, record, v, w)
    ensures Kept(env, mark, v, w, m)
  {
    hide Stray, Visible, Skipped, Holds;
    if IsPort(m.kind) {
      PortReads(env, mark, v, m);
    } else if IsIcmp(m.kind) {
      IcmpReads(env, mark, v, m);
    } else if IsIp4(m.kind) {
      Ip4Holds(env, mark, v, w, m);
    } else {
      MetaHolds(env, mark, v, m);
    }
    hide Bit, PortPasses, PortAt, IcmpField, Host32, InNetwork;
    assert IsPort(m.kind) ==> SeenPort(env, v, m.kind) == RealPort(env, w, m.kind);
    assert IsIcmp(m.kind) ==> SeenIcmp(env, v, m.kind) == RealIcmp(env, w, m.kind);
  }

  /** Payloads that tell two ports apart. */
  lemma PortKept(env: Env, mark: nat, v: View, w: Wire, kind: MatcherKind)
    requires ValidView(env, v) && IsPort(kind)
    requires forall m: Matcher :: m.kind == kind && m.op == Eq && |m.payload| >= 2 ==> Kept(env, mark, v, w, m)
    ensures SeenPort(env, v, kind) == RealPort(env, w, kind)
  {
    var seen, there := SeenPort(env, v, kind), RealPort(env, w, kind);
    var port := if there == NO_FIELD then seen else there;
    if port != NO_FIELD {
      var m := Matcher(kind, Eq, [port / 0x100, port % 0x100]);
      PortReads(env, mark, v, m);
      hide PortAt, Holds;
      assert Kept(env, mark, v, w, m);
    }
  }

  lemma IcmpKept(env: Env, mark: nat, v: View, w: Wire, kind: MatcherKind)
    requires ValidView(env, v) && IsIcmp(kind)
    requires forall m: Matcher :: m.kind == kind && m.op == Eq && |m.payload| >= 1 ==> Kept(env, mark, v, w, m)
    ensures SeenIcmp(env, v, kind) == RealIcmp(env, w, kind)
  {
    var seen, there := SeenIcmp(env, v, kind), RealIcmp(env, w, kind);
    var field := if there == NO_FIELD then seen else there;
    if field != NO_FIELD {
      assert Kept(env, mark, v, w, Matcher(kind, Eq, [field]));
    }
  }

  /**
   All matchers that ask for something in the packet, with every operator and payload, keep their
   promise on a packet if and only if the program sees what is there.
   */
  lemma PacketAsPromised(env: Env, record: bool, mark: nat, v: View, w: Wire)
    requires ValidView(env, v) && Classified(env, record, v, w)
    ensures (forall m :: AsksPacket(record, m) ==> Kept(env, mark, v, w, m)) <==> SeenAsIs(env, record, v, w)
  {
    hide Classified, Kept, SeenPort, RealPort, SeenIcmp, RealIcmp;
    if SeenAsIs(env, record, v, w) {
      forall m | AsksPacket(record, m)
        ensures Kept(env, mark, v, w, m)
      {
        SeenKeeps(env, record, mark, v, w, m);
      }
    } else if forall m :: AsksPacket(record, m) ==> Kept(env, mark, v, w, m) {
      KeptProtocols(env, record, mark, v, w);
      forall kind | IsPort(kind)
        ensures SeenPort(env, v, kind) == RealPort(env, w, kind)
      {
        PortKept(env, mark, v, w, kind);
      }
      forall kind | IsIcmp(kind)
        ensures SeenIcmp(env, v, kind) == RealIcmp(env, w, kind)
      {
        IcmpKept(env, mark, v, w, kind);
      }
    }
  }

  lemma KeptProtocols(env: Env, record: bool, mark: nat, v: View, w: Wire)
    requires ValidView(env, v) && Classified(env, record, v, w)
    requires forall m :: AsksPacket(record, m) ==> Kept(env, mark, v, w, m)
    ensures v.l3 == w.l3 && v.l4 == w.l4
    ensures record && v.l3 == ETHERTYPE_IP6 ==> forall h :: Extension(h) ==> (Bit(v.eh, EhBit(h)) <==> h in w.headers)
  {
    hide Bit, Stray, Visible, Skipped;
    var any := Matcher(MetaL3Proto, Eq, [0, 0]);
    assert Kept(env, mark, v, w, any);
    assert Kept(env, mark, v, w, Matcher(MetaL4Proto, Eq, [v.l4]));
    if record && v.l3 == IP6 {
      forall h | Extension(h)
        ensures Bit(v.eh, EhBit(h)) <==> h in w.headers
      {
        assert Kept(env, mark, v, w, Matcher(Ip6Nexthdr, Eq, [h]));
      }
    }
  }

  /**
   The guard: supported protocols, found where they are, no port 0, no later fragment unless its
   payload starts with zeros where ports would be, and no recorded header that is skipped.
   */
  predicate Clean(env: Env, record: bool, v: View, w: Wire)
    requires ValidView(env, v)
  {
    && SupportedL3(w.l3) && (w.l4 == 0 || Visible(env, record, v, w))
    && (w.l4 == 6 || w.l4 == 17 ==> InData(env, w.l4off, 4)
                                    && (Net16(env, w.l4off) != 0) == (Net16(env, w.l4off + 2) != 0) == w.whole)
    && (w.l4 == 1 || w.l4 == 58 ==> w.whole)
    && (record && Skipped(env, v) ==> forall h :: h in w.headers ==> !Extension(h))
  }

  /** On every packet the walker does not stray on, that guard is exact. */
  lemma CleanIsSeen(env: Env, record: bool, v: View, w: Wire)
    requires ValidView(env, v) && Classified(env, record, v, w) && !Stray(env, v)
    ensures SeenAsIs(env, record, v, w) <==> Clean(env, record, v, w)
  {
    hide Bit, Net16, Stray, CutShort;
    assert IsPort(MetaSport) && IsPort(MetaDport);
    assert IsIcmp(IcmpType) && IsIcmp(Icmpv6Type);
  }

  // ---- inputs on which the promises are broken ----

  /** Interface 65537 passes a filter on interface 1, and mark 0x80000000 never matches itself. */
  lemma OperandsCutOff(env: Env, v: View, w: Wire)
    requires ValidView(env, v) && v.ifindex == 65537
    ensures var m := Matcher(MetaIface, Eq, [1, 0, 0, 0]); Holds(env, 0, v, m) && !Promised(env, 0, v, w, m)
    ensures var m := Matcher(MetaMark, Eq, [0, 0, 0, 0x80]);
            Promised(env, 0x8000_0000, v, w, m) && !Holds(env, 0x8000_0000, v, m)
  {
    assert U32([1, 0, 0, 0]) == 1;
    assert U32([0, 0, 0, 0x80]) == 0x8000_0000;
  }

  /** A GRE packet is not matched as GRE, is matched as not GRE, and is matched as protocol 0. */
  lemma GreIsMisread(env: Env, record: bool, ifindex: nat, size: nat)
    requires SliceOk(env, 0, 20) && env.data[9] == 47 && ifindex < TWO32 && size < TWO64
    ensures var p, w := ParseFrom(env, record, IP4, 0, ifindex, size), WireOf(env, IP4, 0);
            && p.Parsed? && ValidView(env, p.v)
            && !Holds(env, 0, p.v, Matcher(MetaL4Proto, Eq, [47])) && Promised(env, 0, p.v, w, Matcher(MetaL4Proto, Eq, [47]))
            && Holds(env, 0, p.v, Matcher(MetaL4Proto, Ne, [47])) && !Promised(env, 0, p.v, w, Matcher(MetaL4Proto, Ne, [47]))
            && Holds(env, 0, p.v, Matcher(MetaL4Proto, Eq, [0])) && !Promised(env, 0, p.v, w, Matcher(MetaL4Proto, Eq, [0]))
  {
  }

  const ARP := 0x0608

  /** An ARP packet is not matched as ARP. */
  lemma ArpIsMisread(env: Env, record: bool, ifindex: nat, size: nat)
    requires ifindex < TWO32 && size < TWO64
    ensures var p, w, m := ParseFrom(env, record, ARP, ETH_HLEN, ifindex, size), WireOf(env, ARP, ETH_HLEN),
                           Matcher(MetaL3Proto, Eq, [0x06, 0x08]);
            p.Parsed? && ValidView(env, p.v) && !Holds(env, 0, p.v, m) && Promised(env, 0, p.v, w, m)
  {
  }

  /** A TCP segment from port 0 is not matched as such. */
  lemma PortZeroIsMisread(env: Env, v: View, w: Wire)
    requires ValidView(env, v) && v.l4 == TCP && w.l4 == TCP && w.whole && w.l4off == v.l4off && Net16(env, v.l4off) == 0
    ensures var m := Matcher(MetaSport, Eq, [0, 0]); !Holds(env, 0, v, m) && Promised(env, 0, v, w, m)
  {
  }

  /**
   Hop-by-hop options, then a fragment header whose reserved byte is 8, then TCP from port 80: the
   program takes the bytes eight behind for the segment and misses the port.
   */
  lemma ReservedByteHidesPort(env: Env, ifindex: nat, size: nat)
    requires ifindex < TWO32 && size < TWO64 && SliceOk(env, 0, 40) && env.data[6] == HOPOPTS
    requires SliceOk(env, 40, 2) && env.data[40] == FRAGMENT && env.data[41] == 0
    requires SliceOk(env, 48, 2) && SliceOk(env, 64, 2) && SliceOk(env, 64, 20)
    requires env.data[48] == TCP && env.data[49] == 8 && env.data[50] == 0 && env.data[51] < 8
    requires env.data[56] == 0 && env.data[57] == 80
    requires env.data[65] != 80
    ensures var p, w, m := ParseFrom(env, false, IP6, 0, ifindex, size), WireOf(env, IP6, 0), Matcher(MetaSport, Eq, [0, 80]);
            && p.Parsed? && ValidView(env, p.v) && p.v.l4 == TCP && p.v.l4off == 64 && w.l4 == TCP && w.l4off == 56
            && !Holds(env, 0, p.v, m) && Promised(env, 0, p.v, w, m)
  {
    assert Trace(env, TCP, 64, 4) == Trail([], TCP, 64, true);
    assert Trace(env, FRAGMENT, 48, 5) == Trail([FRAGMENT], TCP, 64, true);
    assert Walk(env, 0, MAX_CHAIN) == Trail([HOPOPTS, FRAGMENT], TCP, 64, true);
    assert HeaderChain(env, TCP, 56) == Wire(IP6, TCP, 56, [], true);
    assert HeaderChain(env, FRAGMENT, 48) == Wire(IP6, TCP, 56, [FRAGMENT], true);
  }

  /** Six destination option headers are walked; behind a seventh, TCP is not found. */
  lemma SeventhHeaderHides(env: Env, ifindex: nat, size: nat)
    requires ifindex < TWO32 && size < TWO64 && SliceOk(env, 0, 40) && env.data[6] == DSTOPTS
    requires forall k :: 0 <= k < 7 ==> OptionsAt(env, 40 + 8 * k, if k < 6 then DSTOPTS else TCP)
    ensures var p, w := ParseFrom(env, false, IP6, 0, ifindex, size), WireOf(env, IP6, 0);
            p.Parsed? && p.v.l4 == 0 && w.l4 == TCP && w.l4off == 96
  {
    SixHops(env, 40, 0);
    ManyOptions(env, 7, 0);
  }

  predicate OptionsAt(env: Env, off: nat, next: byte) {
    SliceOk(env, off, 2) && env.data[off] == next && env.data[off + 1] == 0
  }

  lemma {:induction false} SixHops(env: Env, off: nat, k: nat)
    requires k <= 6 && off == 40 + 8 * k && forall i :: k <= i < 6 ==> OptionsAt(env, 40 + 8 * i, DSTOPTS)
    ensures var t := Trace(env, DSTOPTS, off, 6 - k); t.proto == DSTOPTS && t.readable
    decreases 6 - k
  {
    if k < 6 {
      assert OptionsAt(env, 40 + 8 * k, DSTOPTS);
      SixHops(env, off + 8, k + 1);
    }
  }

  lemma {:induction false} ManyOptions(env: Env, n: nat, k: nat)
    requires k < n && forall i :: k <= i < n ==> OptionsAt(env, 40 + 8 * i, if i < n - 1 then DSTOPTS else TCP)
    ensures var w := HeaderChain(env, DSTOPTS, 40 + 8 * k); w.l4 == TCP && w.l4off == 40 + 8 * n
    decreases n - k
  {
    assert OptionsAt(env, 40 + 8 * k, if k < n - 1 then DSTOPTS else TCP);
    if k < n - 1 {
      ManyOptions(env, n, k + 1);
    }
  }

  /** A later IPv4 fragment has no ports, but its first bytes are matched as if they were. */
  lemma LaterFragmentIsMisread(env: Env, ifindex: nat, size: nat)
    requires ifindex < TWO32 && size < TWO64 && SliceOk(env, 0, 20) && env.data[0] == 0x45 && env.data[9] == TCP
    requires env.data[7] != 0 && SliceOk(env, 20, 20) && env.data[20] == 0 && env.data[21] == 80
    ensures var p, w, m := ParseFrom(env, false, IP4, 0, ifindex, size), WireOf(env, IP4, 0), Matcher(MetaSport, Eq, [0, 80]);
            p.Parsed? && ValidView(env, p.v) && Holds(env, 0, p.v, m) && !Promised(env, 0, p.v, w, m)
  {
  }
}
