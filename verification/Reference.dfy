/**
 What a filter is meant to do with a packet, without any code: how headers are found, when
 a matcher holds, and how rules and policy decide.
 */
module Reference {
  import opened Bits
  import opened Packet
  import opened Chain
  import opened Prefix
  import Ipv6Walk
  import Bpf

  // Protocol numbers as the program keeps them: ethertypes in network order on a little-endian host.
  const IP4 := 0x0008
  const IP6 := 0xDD86
  const ICMP := 1
  const TCP := 6
  const UDP := 17
  const ICMPV6 := 58

  const ETH_HLEN := 14

  function L3Len(l3: nat): nat {
    if l3 == IP4 then 20 else 40
  }

  function L4Len(l4: nat): nat {
    if l4 == TCP then 20 else 8
  }

  predicate KnownL3(l3: nat) { l3 == IP4 || l3 == IP6 }
  predicate KnownL4(l4: int) { l4 == TCP || l4 == UDP || l4 == ICMP || l4 == ICMPV6 }

  /** What matchers can see: protocols (0 when unsupported), header positions, packet metadata. */
  datatype View = View(l3: nat, l4: nat, l3off: nat, l4off: nat, ifindex: nat, size: nat, eh: nat)

  predicate ValidView(env: Env, v: View) {
    && (v.l3 == 0 || (KnownL3(v.l3) && InData(env, v.l3off, L3Len(v.l3))))
    && (v.l4 == 0 || (KnownL4(v.l4) && InData(env, v.l4off, L4Len(v.l4))))
    && v.ifindex < TWO32 && v.size < TWO64 && v.eh < TWO8
  }

  // ---- matchers ----

  function U8(p: seq<byte>): byte
    requires |p| >= 1
  {
    p[0]
  }

  function U16(p: seq<byte>, i: nat): (n: nat)
    requires |p| >= 2 * i + 2
    ensures n < TWO16
  {
    p[2 * i] + TWO8 * p[2 * i + 1]
  }

  function U32(p: seq<byte>): nat
    requires |p| >= 4
  {
    Word(p[..4])
  }

  /** The payload holds what the generator reads from it. */
  predicate WellFormed(m: Matcher) {
    match m.kind
    case MetaIface => |m.payload| >= 4
    case MetaL3Proto => |m.payload| >= 2
    case MetaL4Proto => |m.payload| >= 1
    case MetaSport => |m.payload| >= (if m.op == Range then 4 else 2)
    case MetaDport => |m.payload| >= (if m.op == Range then 4 else 2)
    case MetaMark => |m.payload| >= 4
    case Ip4Saddr => |m.payload| >= 4
    case Ip4Daddr => |m.payload| >= 4
    case Ip4Snet => |m.payload| >= 8 && U32(m.payload) <= 32
    case Ip4Dnet => |m.payload| >= 8 && U32(m.payload) <= 32
    case _ => |m.payload| >= 1
  }

  /** Operators the generator has code for. */
  predicate OpKnown(m: Matcher) {
    match m.kind
    case MetaSport => m.op == Eq || m.op == Ne || m.op == Range
    case MetaDport => m.op == Eq || m.op == Ne || m.op == Range
    case MetaMark => m.op == Eq || m.op == Ne
    case Ip6Nexthdr => m.op == Eq || m.op == Ne
    case IcmpType => m.op == Eq || m.op == Ne
    case IcmpCode => m.op == Eq || m.op == Ne
    case Icmpv6Type => m.op == Eq || m.op == Ne
    case Icmpv6Code => m.op == Eq || m.op == Ne
    case _ => true
  }

  predicate ByOp(op: MatcherOp, equal: bool) {
    if op == Eq then equal else !equal
  }

  predicate HasPorts(v: View) { v.l4 == TCP || v.l4 == UDP }

  function PortOff(kind: MatcherKind): nat {
    if kind == MetaSport then 0 else 2
  }

  function AddrOff(kind: MatcherKind): nat {
    if kind == Ip4Saddr || kind == Ip4Snet then 12 else 16
  }

  function AddrAt(env: Env, off: nat): Addr
    requires InData(env, off, 4)
  {
    env.data[off..off + 4]
  }

  /** A port as the packet stores it, against the payload: ranges compare host-order values. */
  predicate PortTest(m: Matcher, port: nat)
    requires (m.kind == MetaSport || m.kind == MetaDport) && WellFormed(m)
  {
    if m.op == Range then U16(m.payload, 0) <= Bpf.Swap16(port) <= U16(m.payload, 1)
    else ByOp(m.op, port == U16(m.payload, 0))
  }

  /**
   When a matcher holds, according to the generated code. The interface index is loaded as 16
   bits, a mark immediate is sign-extended, port 0 reads as "no port", unsupported protocols
   read as 0, and the interface and layer 3 protocol matchers ignore their operator.
   */
  predicate Holds(env: Env, mark: nat, v: View, m: Matcher)
    requires ValidView(env, v) && WellFormed(m)
  {
    match m.kind
    case MetaIface => v.ifindex % TWO16 == U32(m.payload)
    case MetaL3Proto => v.l3 == Bpf.Swap16(U16(m.payload, 0))
    case MetaL4Proto => ByOp(m.op, v.l4 == U8(m.payload))
    case MetaSport => HasPorts(v) && Le16(env, v.l4off) != 0 && PortTest(m, Le16(env, v.l4off))
    case MetaDport => HasPorts(v) && Le16(env, v.l4off + 2) != 0 && PortTest(m, Le16(env, v.l4off + 2))
    case MetaMark => ByOp(m.op, mark == U32(m.payload) && U32(m.payload) < TWO31)
    case Ip4Saddr => v.l3 == IP4 && ByOp(m.op, AddrAt(env, v.l3off + 12) == m.payload[..4])
    case Ip4Daddr => v.l3 == IP4 && ByOp(m.op, AddrAt(env, v.l3off + 16) == m.payload[..4])
    case Ip4Snet =>
      v.l3 == IP4 && ByOp(m.op, SharePrefix(AddrAt(env, v.l3off + 12), m.payload[4..8], U32(m.payload)))
    case Ip4Dnet =>
      v.l3 == IP4 && ByOp(m.op, SharePrefix(AddrAt(env, v.l3off + 16), m.payload[4..8], U32(m.payload)))
    case Ip4Proto => v.l3 == IP4 && ByOp(m.op, env.data[v.l3off + 9] == U8(m.payload))
    case Ip6Nexthdr =>
      v.l3 == IP6 &&
      ByOp(m.op, if Ipv6Walk.IsExt(U8(m.payload)) then Bit(v.eh, Ipv6Walk.EhBit(U8(m.payload)))
                 else v.l4 == U8(m.payload))
    case IcmpType => v.l4 == ICMP && ByOp(m.op, env.data[v.l4off] == U8(m.payload))
    case IcmpCode => v.l4 == ICMP && ByOp(m.op, env.data[v.l4off + 1] == U8(m.payload))
    case Icmpv6Type => v.l4 == ICMPV6 && ByOp(m.op, env.data[v.l4off] == U8(m.payload))
    case Icmpv6Code => v.l4 == ICMPV6 && ByOp(m.op, env.data[v.l4off + 1] == U8(m.payload))
  }

  predicate RuleMatches(env: Env, mark: nat, v: View, ms: seq<Matcher>)
    requires ValidView(env, v) && forall m :: m in ms ==> WellFormed(m)
  {
    forall m :: m in ms ==> Holds(env, mark, v, m)
  }

  // ---- finding the headers ----

  // Fields of the program argument: struct xdp_md, or struct __sk_buff.
  const XDP_DATA := 0
  const XDP_DATA_END := 4
  const XDP_INGRESS_IFINDEX := 12
  const SKB_LEN := 0
  const SKB_MARK := 8
  const SKB_IFINDEX := 40
  const SKB_FAMILY := 88

  const AF_INET := 2
  const AF_INET6 := 10

  predicate HasField(arg: map<int, nat>, off: int) {
    off in arg && arg[off] < TWO32
  }

  predicate ArgOk(hook: Hook, arg: map<int, nat>) {
    match hook
    case Xdp => HasField(arg, XDP_DATA) && HasField(arg, XDP_DATA_END) && HasField(arg, XDP_INGRESS_IFINDEX)
    case _ => HasField(arg, SKB_LEN) && HasField(arg, SKB_MARK) && HasField(arg, SKB_IFINDEX) && HasField(arg, SKB_FAMILY)
  }

  predicate IsCgroup(hook: Hook) { hook.CgroupIngress? || hook.CgroupEgress? }

  /** Packet size accounted to counters; hooks without a link-layer header add one. */
  function PacketSize(hook: Hook, arg: map<int, nat>): (n: nat)
    requires ArgOk(hook, arg)
    ensures n < TWO64
  {
    if hook.Xdp? then (arg[XDP_DATA_END] - arg[XDP_DATA]) % TWO64
    else if IsCgroup(hook) then arg[SKB_LEN] + ETH_HLEN
    else arg[SKB_LEN]
  }

  function Interface(hook: Hook, arg: map<int, nat>): nat
    requires ArgOk(hook, arg)
  {
    if hook.Xdp? then arg[XDP_INGRESS_IFINDEX] else arg[SKB_IFINDEX]
  }

  function FamilyProto(family: nat): nat {
    if family == AF_INET then IP4 else if family == AF_INET6 then IP6 else 0
  }

  /** Where a layer was found, or that the kernel refused to show it. */
  datatype Found = Refused | Found(proto: nat, off: nat, eh: nat)

  /** First next-header values that make the program walk the extension headers. */
  predicate Walked(nexthdr: int) {
    nexthdr in {0, 11, 47, 48, 59, 60, 135, 139, 140}
  }

  /** The transport header of an IP packet, as the prologue looks for it. */
  function FindL4(env: Env, record: bool, l3: nat, l3off: nat): Found
    requires KnownL3(l3)
  {
    if !SliceOk(env, l3off, L3Len(l3)) then Refused
    else if l3 == IP4 then Found(env.data[l3off + 9], l3off + env.data[l3off] % 16 * 4, 0)
    else if Walked(env.data[l3off + 6]) then
      var t := Ipv6Walk.Walk(env, l3off, Ipv6Walk.MAX_CHAIN);
      Found(if record then t.proto else Ipv6Walk.EhResult(t), t.off,
            if record then Ipv6Walk.HeaderMask(t.types) % TWO8 else 0)
    else Found(env.data[l3off + 6], l3off + 40, 0)
  }

  /** What the prologue makes of a packet whose network protocol and offset are known. */
  datatype Parsed = Rejected | Parsed(v: View)

  function ParseFrom(env: Env, record: bool, l3: nat, l3off: nat, ifindex: nat, size: nat): Parsed {
    if !KnownL3(l3) then Parsed(View(0, 0, l3off, 0, ifindex, size, 0))
    else
      match FindL4(env, record, l3, l3off)
      case Refused => Rejected
      case Found(proto, off, eh) =>
        if !KnownL4(proto) then Parsed(View(l3, 0, l3off, off, ifindex, size, eh))
        else if !SliceOk(env, off, L4Len(proto)) then Rejected
        else Parsed(View(l3, proto, l3off, off, ifindex, size, eh))
  }

  function Parse(hook: Hook, record: bool, env: Env, arg: map<int, nat>): Parsed
    requires ArgOk(hook, arg)
  {
    var ifindex, size := Interface(hook, arg), PacketSize(hook, arg);
    if !env.dynptrOk then Rejected
    else if IsCgroup(hook) then ParseFrom(env, record, FamilyProto(arg[SKB_FAMILY]), 0, ifindex, size)
    else if !SliceOk(env, 0, ETH_HLEN) then Rejected
    else ParseFrom(env, record, Le16(env, 12), ETH_HLEN, ifindex, size)
  }
}
