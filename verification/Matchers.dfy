/**
 The code each matcher generator appends, and the proof that running it decides exactly
 whether the matcher holds: control falls through when it does, and leaves for the next rule
 when it does not, changing only scratch registers.
 */
module Matchers {
  import opened Bits
  import opened Packet
  import opened Bpf
  import opened Asm
  import opened Switch
  import opened Chain
  import opened Prefix
  import opened Reference
  import Ipv6Walk

  // ---- code ----

  function IfaceCode(m: Matcher): seq<Item>
    requires |m.payload| >= 4
  {
    [LdxMem(H, 1, 10, IFINDEX), NextRuleImm(Jne, 1, S32(U32(m.payload)))]
  }

  function L3ProtoCode(m: Matcher): seq<Item>
    requires |m.payload| >= 2
  {
    [NextRuleImm(Jne, 7, Swap16(U16(m.payload, 0)))]
  }

  /** Leave for the next rule when the comparison contradicts the operator. */
  function Unless(op: MatcherOp): Cond {
    if op == Eq then Jne else Jeq
  }

  function L4ProtoCode(m: Matcher): seq<Item>
    requires |m.payload| >= 1
  {
    [NextRuleImm(Unless(m.op), 8, U8(m.payload))]
  }

  function PortCases(kind: MatcherKind): seq<Case> {
    [Case(TCP, [LdxMem(H, 1, 6, PortOff(kind))]), Case(UDP, [LdxMem(H, 1, 6, PortOff(kind))])]
  }

  const NO_PORT := Otherwise([Mov64Imm(1, 0)])

  function PortTestCode(m: Matcher): seq<Item>
    requires |m.payload| >= (if m.op == Range then 4 else 2)
  {
    if m.op == Range then
      [Plain(Bswap, 1, 0, 0, 16), NextRuleImm(Jlt, 1, U16(m.payload, 0)), NextRuleImm(Jgt, 1, U16(m.payload, 1))]
    else
      [NextRuleImm(Unless(m.op), 1, U16(m.payload, 0))]
  }

  function PortCode(m: Matcher): seq<Item>
    requires |m.payload| >= (if m.op == Range then 4 else 2)
  {
    [LdxMem(DW, 6, 10, L4_HDR)] + SwitchCode(8, PortCases(m.kind), NO_PORT)
    + ([NextRuleImm(Jeq, 1, 0)] + PortTestCode(m))
  }

  function MarkCode(m: Matcher): seq<Item>
    requires |m.payload| >= 4
  {
    [LdxMem(DW, 1, 10, ARG), LdxMem(W, 1, 1, SKB_MARK), NextRuleImm(Unless(m.op), 1, S32(U32(m.payload)))]
  }

  function Ip4Guard(): seq<Item> {
    [NextRuleImm(Jne, 7, IP4), LdxMem(DW, 6, 10, L3_HDR)]
  }

  function AddrCode(m: Matcher): seq<Item>
    requires |m.payload| >= 4
  {
    [LdxMem(W, 1, 6, AddrOff(m.kind)), Mov32Imm(2, S32(U32(m.payload))), NextRuleReg(Unless(m.op), 1, 2)]
  }

  function Ip4ProtoCode(m: Matcher): seq<Item>
    requires |m.payload| >= 1
  {
    [LdxMem(B, 1, 6, 9), NextRuleImm(Unless(m.op), 1, U8(m.payload))]
  }

  function MaskWord(m: Matcher): nat
    requires |m.payload| >= 4
  {
    Word(MaskBytes(U32(m.payload)))
  }

  function NetWord(m: Matcher): nat
    requires |m.payload| >= 8
  {
    Word(m.payload[4..8])
  }

  function NetMaskCode(m: Matcher): seq<Item>
    requires |m.payload| >= 8
  {
    if MaskWord(m) == TWO32 - 1 then []
    else [Mov32Imm(3, S32(MaskWord(m))), And32Reg(1, 3), And32Reg(2, 3)]
  }

  function NetCode(m: Matcher): seq<Item>
    requires |m.payload| >= 8
  {
    [LdxMem(W, 1, 6, AddrOff(m.kind)), Mov32Imm(2, S32(NetWord(m)))] + NetMaskCode(m)
    + [NextRuleReg(Unless(m.op), 1, 2)]
  }

  function NexthdrCode(m: Matcher): seq<Item>
    requires |m.payload| >= 1
  {
    [NextRuleImm(Jne, 7, IP6), LdxMem(DW, 6, 10, L3_HDR)]
    + if Ipv6Walk.IsExt(U8(m.payload)) then
        [LdxMem(DW, 1, 10, IPV6_EH), AluImm(And, 1, Pow2(Ipv6Walk.EhBit(U8(m.payload)))),
         NextRuleImm(if m.op == Eq then Jeq else Jne, 1, 0)]
      else
        [NextRuleImm(Unless(m.op), 8, U8(m.payload))]
  }

  function IcmpProto(kind: MatcherKind): nat {
    if kind == IcmpType || kind == IcmpCode then ICMP else ICMPV6
  }

  function IcmpOff(kind: MatcherKind): nat {
    if kind == IcmpType || kind == Icmpv6Type then 0 else 1
  }

  function IcmpCodeItems(m: Matcher): seq<Item>
    requires |m.payload| >= 1
  {
    [NextRuleImm(Jne, 8, IcmpProto(m.kind)), LdxMem(DW, 6, 10, L4_HDR), LdxMem(B, 1, 6, IcmpOff(m.kind)),
     NextRuleImm(Unless(m.op), 1, U8(m.payload))]
  }

  function MatcherCode(m: Matcher): seq<Item>
    requires WellFormed(m)
  {
    match m.kind
    case MetaIface => IfaceCode(m)
    case MetaL3Proto => L3ProtoCode(m)
    case MetaL4Proto => L4ProtoCode(m)
    case MetaSport => PortCode(m)
    case MetaDport => PortCode(m)
    case MetaMark => MarkCode(m)
    case Ip4Saddr => Ip4Guard() + AddrCode(m)
    case Ip4Daddr => Ip4Guard() + AddrCode(m)
    case Ip4Snet => Ip4Guard() + NetCode(m)
    case Ip4Dnet => Ip4Guard() + NetCode(m)
    case Ip4Proto => Ip4Guard() + Ip4ProtoCode(m)
    case Ip6Nexthdr => NexthdrCode(m)
    case _ => IcmpCodeItems(m)
  }

  // ---- meaning ----

  /** The machine state in which rules run: protocols in r7 and r8, context fields in place. */
  predicate Ready(env: Env, record: bool, v: View, st: State) {
    && ValidView(env, v)
    && st.regs[10] == Frame(0) && st.regs[7] == Num(v.l3) && st.regs[8] == Num(v.l4)
    && ARG in st.frame && st.frame[ARG] == Slot(Arg, 8)
    && PKT_SIZE in st.frame && st.frame[PKT_SIZE] == Slot(Num(v.size), 8)
    && IFINDEX in st.frame && st.frame[IFINDEX] == Slot(Num(v.ifindex), 4)
    && (v.l3 != 0 ==> L3_HDR in st.frame && st.frame[L3_HDR] == Slot(Pkt(v.l3off, L3Len(v.l3)), 8))
    && (v.l4 != 0 ==> L4_HDR in st.frame && st.frame[L4_HDR] == Slot(Pkt(v.l4off, L4Len(v.l4)), 8))
    && (v.l4 == 0 ==> L4_HDR !in st.frame)
    && (record ==> IPV6_EH in st.frame && st.frame[IPV6_EH].val == Num(v.eh)
                   && (st.frame[IPV6_EH].width == 1 || st.frame[IPV6_EH].width == 8))
  }

  predicate HasMark(st: State) {
    SKB_MARK in st.arg && st.arg[SKB_MARK] < TWO32
  }

  function MarkOf(st: State): nat {
    if SKB_MARK in st.arg then st.arg[SKB_MARK] else 0
  }

  /** Fell through when the test holds, left for the next rule when not; only r0-r6 changed. */
  predicate Decided(o: Outcome, holds: bool, st: State) {
    && (if holds then o.At? && o.k == 0 else o.Next?)
    && SameEffects(o.st, st) && o.st.regs[7..] == st.regs[7..]
  }

  lemma StillReady(env: Env, record: bool, v: View, st: State, st': State)
    requires Ready(env, record, v, st) && SameEffects(st', st) && st'.regs[7..] == st.regs[7..]
    ensures Ready(env, record, v, st')
  {
    assert st'.regs[7] == st'.regs[7..][0] && st'.regs[8] == st'.regs[7..][1] && st'.regs[10] == st'.regs[7..][3];
    assert st.regs[7] == st.regs[7..][0] && st.regs[8] == st.regs[7..][1] && st.regs[10] == st.regs[7..][3];
  }

  lemma IfaceMeaning(env: Env, link: Link, record: bool, v: View, m: Matcher, st: State)
    requires Ready(env, record, v, st) && WellFormed(m) && m.kind == MetaIface
    ensures Decided(Run(env, link, MatcherCode(m), 0, st), Holds(env, MarkOf(st), v, m), st)
  {
    hide Exec, Run;
    var c := IfaceCode(m);
    var s1 := StepLoad(env, link, c, 0, st, Num(v.ifindex % TWO16));
    StepJump(env, link, c, 1, s1, v.ifindex % TWO16 != U32(m.payload));
    RunEnd(env, link, c, 2, s1);
  }

  lemma ProtoMeaning(env: Env, link: Link, record: bool, v: View, m: Matcher, st: State)
    requires Ready(env, record, v, st) && WellFormed(m) && (m.kind == MetaL3Proto || m.kind == MetaL4Proto)
    ensures Decided(Run(env, link, MatcherCode(m), 0, st), Holds(env, MarkOf(st), v, m), st)
  {
    hide Exec, Run, Swap16;
    var c := MatcherCode(m);
    if m.kind == MetaL3Proto {
      Swap16Bound(U16(m.payload, 0));
    }
    StepJump(env, link, c, 0, st, !Holds(env, MarkOf(st), v, m));
    RunEnd(env, link, c, 1, st);
  }

  lemma Swap16Bound(n: nat)
    ensures Swap16(n) < TWO16
  {
  }

  lemma MarkMeaning(env: Env, link: Link, record: bool, v: View, m: Matcher, st: State)
    requires Ready(env, record, v, st) && WellFormed(m) && m.kind == MetaMark && HasMark(st)
    ensures Decided(Run(env, link, MatcherCode(m), 0, st), Holds(env, MarkOf(st), v, m), st)
  {
    hide Exec, Run;
    var c := MarkCode(m);
    var s1 := StepLoad(env, link, c, 0, st, Arg);
    var s2 := StepLoad(env, link, c, 1, s1, Num(st.arg[SKB_MARK]));
    StepJump(env, link, c, 2, s2, !Holds(env, MarkOf(st), v, m));
    RunEnd(env, link, c, 3, s2);
  }

  lemma IcmpHolds(env: Env, mark: nat, v: View, m: Matcher)
    requires ValidView(env, v) && WellFormed(m)
    requires m.kind == IcmpType || m.kind == IcmpCode || m.kind == Icmpv6Type || m.kind == Icmpv6Code
    ensures Holds(env, mark, v, m) <==>
            v.l4 == IcmpProto(m.kind) && ByOp(m.op, env.data[v.l4off + IcmpOff(m.kind)] == U8(m.payload))
  {
  }

  lemma IcmpTestMeaning(env: Env, link: Link, record: bool, v: View, m: Matcher, st: State)
    requires Ready(env, record, v, st) && |m.payload| >= 1
    ensures Decided(Run(env, link, IcmpCodeItems(m), 0, st),
                    v.l4 == IcmpProto(m.kind) &&
                    ByOp(m.op, env.data[v.l4off + IcmpOff(m.kind)] == U8(m.payload)), st)
  {
    hide Exec, Run, Load, Tested;
    var c := IcmpCodeItems(m);
    StepTest(env, link, c, 0, st, v.l4);
    if v.l4 == IcmpProto(m.kind) {
      var s1 := StepLoadPtr(env, link, c, 1, st, Pkt(v.l4off, 8));
      var s2 := StepLoadByte(env, link, c, 2, s1, v.l4off, 8);
      StepTest(env, link, c, 3, s2, env.data[v.l4off + IcmpOff(m.kind)]);
      RunEnd(env, link, c, 4, s2);
    }
  }

  lemma IcmpMeaning(env: Env, link: Link, record: bool, v: View, m: Matcher, st: State)
    requires Ready(env, record, v, st) && WellFormed(m)
    requires m.kind == IcmpType || m.kind == IcmpCode || m.kind == Icmpv6Type || m.kind == Icmpv6Code
    ensures Decided(Run(env, link, MatcherCode(m), 0, st), Holds(env, MarkOf(st), v, m), st)
  {
    hide Exec, Run, Holds, IcmpCodeItems, Decided;
    IcmpHolds(env, MarkOf(st), v, m);
    IcmpTestMeaning(env, link, record, v, m, st);
    assert MatcherCode(m) == IcmpCodeItems(m);
  }

  /** The IPv4 guard, then whatever follows it with the header address in r6. */
  lemma GuardMeaning(env: Env, link: Link, record: bool, v: View, rest: seq<Item>, st: State) returns (s: State)
    requires Ready(env, record, v, st)
    ensures s == if v.l3 == IP4 then WithReg(st, 6, Pkt(v.l3off, 20)) else st
    ensures v.l3 != IP4 ==> Run(env, link, Ip4Guard() + rest, 0, st) == Next(st)
    ensures v.l3 == IP4 ==> Run(env, link, Ip4Guard() + rest, 0, st) == Run(env, link, rest, 0, s)
  {
    hide Exec, Run, Tested;
    var c := Ip4Guard() + rest;
    s := st;
    StepTest(env, link, c, 0, st, v.l3);
    if v.l3 == IP4 {
      s := StepLoadPtr(env, link, c, 1, st, Pkt(v.l3off, 20));
      RunShift(env, link, Ip4Guard(), rest, 2, s);
    }
  }

  lemma Ip4ProtoMeaning(env: Env, link: Link, record: bool, v: View, m: Matcher, st: State)
    requires Ready(env, record, v, st) && WellFormed(m) && m.kind == Ip4Proto
    ensures Decided(Run(env, link, MatcherCode(m), 0, st), Holds(env, MarkOf(st), v, m), st)
  {
    hide Exec, Run, Tested;
    var c := Ip4ProtoCode(m);
    var s := GuardMeaning(env, link, record, v, c, st);
    if v.l3 == IP4 {
      var s1 := StepLoadByte(env, link, c, 0, s, v.l3off, 20);
      StepTest(env, link, c, 1, s1, env.data[v.l3off + 9]);
      RunEnd(env, link, c, 2, s1);
    }
  }

  lemma WordsDetermineAddrs(a: Addr, b: Addr)
    ensures Word(a) == Word(b) <==> a == b
  {
    BytesDetermineWord(a[0], a[1], a[2], a[3], b[0], b[1], b[2], b[3]);
  }

  lemma AddrHolds(env: Env, mark: nat, v: View, m: Matcher)
    requires ValidView(env, v) && WellFormed(m) && (m.kind == Ip4Saddr || m.kind == Ip4Daddr)
    ensures Holds(env, mark, v, m) <==>
            v.l3 == IP4 && ByOp(m.op, AddrAt(env, v.l3off + AddrOff(m.kind)) == m.payload[..4])
  {
  }

  lemma NetHolds(env: Env, mark: nat, v: View, m: Matcher)
    requires ValidView(env, v) && WellFormed(m) && (m.kind == Ip4Snet || m.kind == Ip4Dnet)
    ensures Holds(env, mark, v, m) <==>
            v.l3 == IP4 && ByOp(m.op, SharePrefix(AddrAt(env, v.l3off + AddrOff(m.kind)), m.payload[4..8], U32(m.payload)))
  {
  }

  lemma AddrMeaning(env: Env, link: Link, record: bool, v: View, m: Matcher, st: State)
    requires Ready(env, record, v, st) && WellFormed(m) && (m.kind == Ip4Saddr || m.kind == Ip4Daddr)
    ensures Decided(Run(env, link, MatcherCode(m), 0, st), Holds(env, MarkOf(st), v, m), st)
  {
    hide Exec, Run, Holds, AddrCode;
    AddrHolds(env, MarkOf(st), v, m);
    var s := GuardMeaning(env, link, record, v, AddrCode(m), st);
    if v.l3 == IP4 {
      AddrTestMeaning(env, link, m, v.l3off, s);
    }
  }

  /** The closing comparison of two words: on, or to the next rule. */
  lemma StepWords(env: Env, link: Link, code: seq<Item>, pc: nat, op: MatcherOp, x: nat, y: nat, st: State)
    requires pc < |code| && code[pc] == NextRuleReg(Unless(op), 1, 2) && st.regs[1] == Num(x) && st.regs[2] == Num(y)
    ensures Run(env, link, code, pc, st) == if ByOp(op, x == y) then Run(env, link, code, pc + 1, st) else Next(st)
  {
    hide Exec, Run;
    StepJump(env, link, code, pc, st, !ByOp(op, x == y));
  }

  lemma StepWordImm(env: Env, link: Link, code: seq<Item>, pc: nat, dst: Reg, w: nat, st: State) returns (st': State)
    requires pc < |code| && w < TWO32 && dst != 10 && code[pc] == Mov32Imm(dst, S32(w))
    ensures st' == WithReg(st, dst, Num(w))
    ensures Run(env, link, code, pc, st) == Run(env, link, code, pc + 1, st')
  {
    hide Exec, Run;
    WordImm(w);
    st' := Step32(env, link, code, pc, st, Num(w));
  }

  lemma AddrTestMeaning(env: Env, link: Link, m: Matcher, at: nat, s: State)
    requires WellFormed(m) && (m.kind == Ip4Saddr || m.kind == Ip4Daddr)
    requires InData(env, at, 20) && s.regs[6] == Pkt(at, 20)
    ensures Decided(Run(env, link, AddrCode(m), 0, s), ByOp(m.op, AddrAt(env, at + AddrOff(m.kind)) == m.payload[..4]), s)
  {
    hide Exec, Run, Word, Load, Le32, Tested, Alu32;
    var c, a := AddrCode(m), AddrAt(env, at + AddrOff(m.kind));
    AddrLoad(env, at + AddrOff(m.kind));
    var s1 := StepLoadWord(env, link, c, 0, s, at, 20);
    WordImm(U32(m.payload));
    var s2 := StepWordImm(env, link, c, 1, 2, U32(m.payload), s1);
    WordsDetermineAddrs(a, m.payload[..4]);
    StepWords(env, link, c, 2, m.op, Word(a), U32(m.payload), s2);
    RunEnd(env, link, c, 3, s2);
  }

  lemma AddrLoad(env: Env, off: nat)
    requires InData(env, off, 4)
    ensures Le32(env, off) == Word(AddrAt(env, off))
  {
  }

  lemma WordImm(w: nat)
    requires w < TWO32
    ensures S32(w) % TWO64 % TWO32 == w
  {
  }

  lemma NetMeaning(env: Env, link: Link, record: bool, v: View, m: Matcher, st: State)
    requires Ready(env, record, v, st) && WellFormed(m) && (m.kind == Ip4Snet || m.kind == Ip4Dnet)
    ensures Decided(Run(env, link, MatcherCode(m), 0, st), Holds(env, MarkOf(st), v, m), st)
  {
    hide Exec, Run, Load, Holds, SharePrefix, NetCode;
    NetHolds(env, MarkOf(st), v, m);
    var s := GuardMeaning(env, link, record, v, NetCode(m), st);
    if v.l3 == IP4 {
      NetTestMeaning(env, link, m, v.l3off, s);
    }
  }

  lemma NetTestMeaning(env: Env, link: Link, m: Matcher, at: nat, s: State)
    requires WellFormed(m) && (m.kind == Ip4Snet || m.kind == Ip4Dnet)
    requires InData(env, at, 20) && s.regs[6] == Pkt(at, 20)
    ensures Decided(Run(env, link, NetCode(m), 0, s),
                    ByOp(m.op, SharePrefix(AddrAt(env, at + AddrOff(m.kind)), m.payload[4..8], U32(m.payload))), s)
  {
    hide Exec, Run, Word, SharePrefix, BitAnd, MaskBytes, Load, Le32, Tested, Alu32;
    var c, a, w := NetCode(m), AddrAt(env, at + AddrOff(m.kind)), MaskWord(m);
    var holds := ByOp(m.op, SharePrefix(a, m.payload[4..8], U32(m.payload)));
    AddrLoad(env, at + AddrOff(m.kind));
    var s1 := StepLoadWord(env, link, c, 0, s, at, 20);
    var s2 := StepWordImm(env, link, c, 1, 2, NetWord(m), s1);
    MaskedWordsCompareThePrefix(a, m.payload[4..8], U32(m.payload));
    if w == TWO32 - 1 {
      AndAllOnes(Word(a));
      AndAllOnes(NetWord(m));
      StepWords(env, link, c, 2, m.op, Word(a), NetWord(m), s2);
      RunEnd(env, link, c, 3, s2);
    } else {
      var s3 := NetMaskMeaning(env, link, m, c, s2, Word(a), NetWord(m));
      StepWords(env, link, c, 5, m.op, BitAnd(Word(a), w), BitAnd(NetWord(m), w), s3);
      RunEnd(env, link, c, 6, s3);
    }
  }

  lemma AndAllOnes(w: nat)
    requires w < TWO32
    ensures BitAnd(w, TWO32 - 1) == w
  {
    Pow2Values();
    AndLowOnes(w, 32);
    ModNoop(w, TWO32);
  }

  lemma NetMaskMeaning(env: Env, link: Link, m: Matcher, c: seq<Item>, s: State, x: nat, y: nat) returns (t: State)
    requires |m.payload| >= 8 && c == NetCode(m) && MaskWord(m) != TWO32 - 1 && x < TWO32 && y < TWO32
    requires s.regs[1] == Num(x) && s.regs[2] == Num(y)
    ensures Run(env, link, c, 2, s) == Run(env, link, c, 5, t)
    ensures t.regs[1] == Num(BitAnd(x, MaskWord(m))) && t.regs[2] == Num(BitAnd(y, MaskWord(m)))
    ensures SameEffects(t, s) && t.regs[4..] == s.regs[4..]
  {
    hide Exec, Run, Word, BitAnd, MaskBytes;
    var w := MaskWord(m);
    WordImm(w);
    ModNoop(x, TWO32);
    ModNoop(y, TWO32);
    ModNoop(w, TWO32);
    var s1 := Step32(env, link, c, 2, s, Num(w));
    var s2 := Step32(env, link, c, 3, s1, Num(BitAnd(x, w)));
    t := Step32(env, link, c, 4, s2, Num(BitAnd(y, w)));
  }

  lemma NexthdrHolds(env: Env, mark: nat, v: View, m: Matcher)
    requires ValidView(env, v) && WellFormed(m) && m.kind == Ip6Nexthdr
    ensures Holds(env, mark, v, m) <==>
            v.l3 == IP6 && ByOp(m.op, if Ipv6Walk.IsExt(U8(m.payload)) then Bit(v.eh, Ipv6Walk.EhBit(U8(m.payload)))
                                      else v.l4 == U8(m.payload))
  {
  }

  lemma NexthdrMeaning(env: Env, link: Link, v: View, m: Matcher, st: State)
    requires Ready(env, true, v, st) && WellFormed(m) && m.kind == Ip6Nexthdr
    ensures Decided(Run(env, link, MatcherCode(m), 0, st), Holds(env, MarkOf(st), v, m), st)
  {
    hide Exec, Run, BitAnd, Bit, Pow2, Holds, Tested;
    NexthdrHolds(env, MarkOf(st), v, m);
    var c, h := NexthdrCode(m), U8(m.payload);
    StepTest(env, link, c, 0, st, v.l3);
    if v.l3 == IP6 {
      var s1 := StepLoadPtr(env, link, c, 1, st, Pkt(v.l3off, 40));
      if Ipv6Walk.IsExt(h) {
        var loaded := LoadSlot(env, DW, st.frame[IPV6_EH]).n;
        var s2 := StepLoad(env, link, c, 2, s1, Num(loaded));
        SmallBit(Ipv6Walk.EhBit(h));
        var s3 := StepImm(env, link, c, 3, s2, Num(BitAnd(loaded, Pow2(Ipv6Walk.EhBit(h)))));
        EhBitTest(env, st.frame[IPV6_EH], v.eh, Ipv6Walk.EhBit(h));
        StepTest(env, link, c, 4, s3, s3.regs[1].n);
        RunEnd(env, link, c, 5, s3);
      } else {
        StepTest(env, link, c, 2, s1, v.l4);
        RunEnd(env, link, c, 3, s1);
      }
    }
  }

  lemma SmallBit(k: nat)
    requires k < 8
    ensures 1 <= Pow2(k) <= 128
  {
    Pow2Small();
    Pow2Mono(k, 7);
  }

  /** The extension-header field reads correctly through the 8-byte load, whatever follows it. */
  lemma EhBitTest(env: Env, slot: Slot, eh: nat, k: nat)
    requires slot.val == Num(eh) && eh < TWO8 && (slot.width == 1 || slot.width == 8) && k < 6
    ensures BitAnd(LoadSlot(env, DW, slot).n, Pow2(k)) != 0 <==> Bit(eh, k)
  {
    hide BitAnd, Bit;
    var x := LoadSlot(env, DW, slot).n;
    Pow2Small();
    AndComm(x, Pow2(k));
    AndSingleBit(k, x);
    if slot.width == 8 {
      ModNoop(eh, TWO64);
    } else {
      ByteOfWide(eh, env.noise, k);
    }
  }

  lemma ByteOfWide(eh: nat, noise: nat, k: nat)
    requires eh < TWO8 && k < 6
    ensures Bit((eh + TWO8 * noise) % TWO64, k) == Bit(eh, k)
  {
    hide Pow2;
    Pow2Small();
    Pow2Zero();
    WideMod(eh, noise);
    LowDigits(eh, noise % (TWO64 / TWO8), Pow2(k));
  }

  lemma Pow2Zero()
    ensures Pow2(0) == 1
  {
  }

  lemma EvenShift(eh: nat, d: nat, z: nat)
    requires d >= 1
    ensures (eh + d * (2 * z)) / d % 2 == eh / d % 2
  {
    var q, r := eh / d, eh % d;
    assert d * q + d * (2 * z) == d * (q + 2 * z);
    DivUnique(eh + d * (2 * z), d, q + 2 * z, r);
  }

  lemma LowDigits(eh: nat, y: nat, d: nat)
    requires d == 1 || d == 2 || d == 4 || d == 8 || d == 16 || d == 32
    ensures (eh + TWO8 * y) / d % 2 == eh / d % 2
  {
    if d == 1 {
      EvenShift(eh, 1, 128 * y);
    } else if d == 2 {
      EvenShift(eh, 2, 64 * y);
    } else if d == 4 {
      EvenShift(eh, 4, 32 * y);
    } else if d == 8 {
      EvenShift(eh, 8, 16 * y);
    } else if d == 16 {
      EvenShift(eh, 16, 8 * y);
    } else {
      EvenShift(eh, 32, 4 * y);
    }
  }

  lemma WideMod(eh: nat, noise: nat)
    requires eh < TWO8
    ensures (eh + TWO8 * noise) % TWO64 == eh + TWO8 * (noise % (TWO64 / TWO8))
  {
    var m := TWO64 / TWO8;
    var q, r := noise / m, noise % m;
    DivUnique(eh + TWO8 * noise, TWO64, q, eh + TWO8 * r);
  }

  // ---- ports ----

  lemma PortTestMeaning(env: Env, link: Link, m: Matcher, port: nat, st: State)
    requires (m.kind == MetaSport || m.kind == MetaDport) && WellFormed(m)
    requires port < TWO16 && st.regs[1] == Num(port)
    ensures Decided(Run(env, link, [NextRuleImm(Jeq, 1, 0)] + PortTestCode(m), 0, st),
                    port != 0 && PortTest(m, port), st)
  {
    hide Exec, Run, Swap16, Tested;
    var c := [NextRuleImm(Jeq, 1, 0)] + PortTestCode(m);
    StepTest(env, link, c, 0, st, port);
    if port != 0 {
      if m.op == Range {
        Swap16Bound(port);
        var s1 := StepSwap(env, link, c, 1, st);
        StepTest(env, link, c, 2, s1, Swap16(port));
        if Swap16(port) >= U16(m.payload, 0) {
          StepTest(env, link, c, 3, s1, Swap16(port));
          RunEnd(env, link, c, 4, s1);
        }
      } else {
        StepTest(env, link, c, 1, st, port);
        RunEnd(env, link, c, 2, st);
      }
    }
  }

  /** The port the switch leaves in r1: 0 when the packet has neither a TCP nor a UDP header. */
  function PortOf(env: Env, v: View, kind: MatcherKind): nat
    requires ValidView(env, v)
  {
    if HasPorts(v) then Le16(env, v.l4off + PortOff(kind)) else 0
  }

  lemma PortChoice(kind: MatcherKind, l4: nat)
    ensures Chosen(PortCases(kind), NO_PORT, l4) ==
            if l4 == TCP || l4 == UDP then [LdxMem(H, 1, 6, PortOff(kind))] else [Mov64Imm(1, 0)]
    ensures ClosedBodies(PortCases(kind), NO_PORT)
  {
    SelectsSmall(TCP, l4);
    SelectsSmall(UDP, l4);
    var i := First(PortCases(kind), l4);
    assert PortCases(kind)[0].imm == TCP && PortCases(kind)[1].imm == UDP;
  }

  lemma PortSwitchMeaning(env: Env, link: Link, record: bool, v: View, kind: MatcherKind, st: State, s: State)
    requires Ready(env, record, v, st)
    requires s == WithReg(st, 6, if v.l4 != 0 then Pkt(v.l4off, L4Len(v.l4)) else s.regs[6])
    ensures Run(env, link, SwitchCode(8, PortCases(kind), NO_PORT), 0, s) ==
            At(0, WithReg(s, 1, Num(PortOf(env, v, kind))))
  {
    hide Exec, Run, First, Chosen, SwitchCode;
    PortChoice(kind, v.l4);
    var body := Chosen(PortCases(kind), NO_PORT, v.l4);
    var s1: State;
    if HasPorts(v) {
      s1 := StepLoad(env, link, body, 0, s, Num(PortOf(env, v, kind)));
    } else {
      s1 := StepImm(env, link, body, 0, s, Num(0));
    }
    RunEnd(env, link, body, 1, s1);
    SwitchMeaning(env, link, 8, PortCases(kind), NO_PORT, s);
  }

  lemma PortMeaning(env: Env, link: Link, record: bool, v: View, m: Matcher, st: State)
    requires Ready(env, record, v, st) && WellFormed(m) && (m.kind == MetaSport || m.kind == MetaDport)
    ensures Decided(Run(env, link, MatcherCode(m), 0, st), Holds(env, MarkOf(st), v, m), st)
  {
    hide Exec, Run, SwitchCode, PortTestCode, PortTest;
    var head, sw := [LdxMem(DW, 6, 10, L4_HDR)], SwitchCode(8, PortCases(m.kind), NO_PORT);
    var test := [NextRuleImm(Jeq, 1, 0)] + PortTestCode(m);
    var c := PortCode(m);
    assert c == head + (sw + test);
    var s := StepLoad(env, link, c, 0, st, Load(env, DW, Frame(0), L4_HDR, st));
    RunShift(env, link, head, sw + test, 1, s);
    PortSwitchMeaning(env, link, record, v, m.kind, st, s);
    SwitchClosed(8, PortCases(m.kind), [Mov64Imm(1, 0)]);
    RunConcat(env, link, sw, test, 0, s);
    PortTestMeaning(env, link, m, PortOf(env, v, m.kind), WithReg(s, 1, Num(PortOf(env, v, m.kind))));
  }

  lemma SwitchClosed(reg: Reg, cases: seq<Case>, body: seq<Item>)
    requires body != [] && Closed(body)
    ensures Closed(SwitchCode(reg, cases, Otherwise(body)))
  {
    var c := SwitchCode(reg, cases, Otherwise(body));
    assert c[|c| - 1] == body[|body| - 1];
  }

  /** Running a matcher's code decides the matcher. */
  lemma MatcherMeaning(env: Env, link: Link, record: bool, v: View, m: Matcher, st: State)
    requires Ready(env, record, v, st) && WellFormed(m)
    requires m.kind == MetaMark ==> HasMark(st)
    requires m.kind == Ip6Nexthdr ==> record
    ensures Decided(Run(env, link, MatcherCode(m), 0, st), Holds(env, MarkOf(st), v, m), st)
  {
    hide Run, Exec, Holds, MatcherCode, Ready;
    match m.kind
    case MetaIface => IfaceMeaning(env, link, record, v, m, st);
    case MetaL3Proto => ProtoMeaning(env, link, record, v, m, st);
    case MetaL4Proto => ProtoMeaning(env, link, record, v, m, st);
    case MetaSport => PortMeaning(env, link, record, v, m, st);
    case MetaDport => PortMeaning(env, link, record, v, m, st);
    case MetaMark => MarkMeaning(env, link, record, v, m, st);
    case Ip4Saddr => AddrMeaning(env, link, record, v, m, st);
    case Ip4Daddr => AddrMeaning(env, link, record, v, m, st);
    case Ip4Snet => NetMeaning(env, link, record, v, m, st);
    case Ip4Dnet => NetMeaning(env, link, record, v, m, st);
    case Ip4Proto => Ip4ProtoMeaning(env, link, record, v, m, st);
    case Ip6Nexthdr => NexthdrMeaning(env, link, v, m, st);
    case _ => IcmpMeaning(env, link, record, v, m, st);
  }
}
