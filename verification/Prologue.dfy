/**
 The code that runs before the first rule: store the argument, measure the packet, create
 the dynamic pointer, and find the link, network and transport headers; and the proof that
 it leaves the machine in the state the rules expect, for exactly the headers a direct
 parser finds, or leaves the program through the error exit.
 */
module Prologue {
  import opened Bits
  import opened Packet
  import opened Bpf
  import opened Asm
  import opened Switch
  import opened Chain
  import opened Reference
  import opened Matchers
  import Ipv6Walk

  const EH_MASK_LOW := 0x0000_0801
  const EH_MASK_HIGH := 0x1801_8000

  // ---- code ----

  function EntryCode(flags: Flags): seq<Item> {
    [StxMem(DW, 10, 1, ARG), Mov64Imm(7, 0), Mov64Imm(8, 0)]
    + (if flags.log then [LoadMap(2, LogMap), Second(0), StxMem(DW, 10, 2, LOG_MAP)] else [])
    + (if flags.storeNexthdr then [StxMem(DW, 10, 7, IPV6_EH)] else [])
  }

  function XdpMetaCode(): seq<Item> {
    [LdxMem(W, 2, 1, XDP_DATA), LdxMem(W, 3, 1, XDP_DATA_END), AluReg(Sub, 3, 2), StxMem(DW, 10, 3, PKT_SIZE),
     LdxMem(W, 2, 1, XDP_INGRESS_IFINDEX), StxMem(W, 10, 2, IFINDEX)]
  }

  function TcMetaCode(): seq<Item> {
    [LdxMem(W, 3, 1, SKB_LEN), StxMem(DW, 10, 3, PKT_SIZE),
     LdxMem(W, 2, 1, SKB_IFINDEX), StxMem(W, 10, 2, IFINDEX)]
  }

  function CgroupMetaCode(): seq<Item> {
    [LdxMem(W, 3, 1, SKB_LEN), AluImm(Add, 3, ETH_HLEN), StxMem(DW, 10, 3, PKT_SIZE),
     LdxMem(W, 2, 1, SKB_IFINDEX), StxMem(W, 10, 2, IFINDEX)]
  }

  const FAMILY_CASES := [Case(AF_INET, [Mov64Imm(7, IP4)]), Case(AF_INET6, [Mov64Imm(7, IP6)])]
  const NO_FAMILY := Otherwise([Mov64Imm(7, 0)])

  function FamilyCode(): seq<Item> {
    [LdxMem(W, 2, 1, SKB_FAMILY)] + SwitchCode(2, FAMILY_CASES, NO_FAMILY) + [StMem(W, 10, L3_OFFSET, 0)]
  }

  function DynptrCode(err: nat, accept: nat): seq<Item> {
    [Mov64Imm(2, 0), Mov64Reg(3, 10), AluImm(Add, 3, DYNPTR), KernelCall(DynptrFrom)]
    + SkipIf(JumpImm(Jeq, 0, 0, 0), CountAndExit(err, accept))
  }

  /** Ask for a slice; leave through the error exit when the kernel refuses. */
  function SliceCode(err: nat, accept: nat): seq<Item> {
    [KernelCall(DynptrSlice)] + SkipIf(JumpImm(Jne, 0, 0, 0), CountAndExit(err, accept))
  }

  function L2Args(): seq<Item> {
    [Mov64Reg(1, 10), AluImm(Add, 1, DYNPTR), Mov64Imm(2, 0), Mov64Reg(3, 10), AluImm(Add, 3, L2_BUF),
     Mov64Imm(4, ETH_HLEN), StxMem(B, 10, 4, L2_SIZE)]
  }

  function L2Code(err: nat, accept: nat): seq<Item> {
    L2Args() + SliceCode(err, accept)
    + [StxMem(DW, 10, 0, L2_HDR), LdxMem(H, 7, 0, 12), StMem(W, 10, L3_OFFSET, ETH_HLEN)]
  }

  const L3_CASES := [Case(IP4, [Mov64Imm(4, 20)]), Case(IP6, [Mov64Imm(4, 40)])]
  const NO_L3 := Otherwise([Mov64Imm(7, 0)])

  /** Arguments of the slice call for a layer whose header length is in r4. */
  function SliceArgs(sizeField: int, offField: int, buf: int): seq<Item> {
    [StxMem(B, 10, 4, sizeField), Mov64Reg(1, 10), AluImm(Add, 1, DYNPTR), LdxMem(W, 2, 10, offField),
     Mov64Reg(3, 10), AluImm(Add, 3, buf)]
  }

  function V4Code(): seq<Item> {
    [LdxMem(B, 1, 0, 0), AluImm(And, 1, 0x0f), AluImm(Lsh, 1, 2), LdxMem(W, 2, 10, L3_OFFSET), AluReg(Add, 1, 2),
     StxMem(W, 10, 1, L4_OFFSET), LdxMem(B, 8, 0, 9)]
  }

  function V6Code(record: bool): seq<Item> {
    [LdxMem(B, 8, 0, 6), JumpImm(Jeq, 8, TCP, 17), JumpImm(Jeq, 8, UDP, 16),
     Plain(LdImm64, 2, 0, 0, EH_MASK_LOW), Second(EH_MASK_HIGH),
     JumpImm(Jge, 8, 64, 4), Mov64Imm(3, 1), AluReg(Lsh, 3, 8), AluReg(And, 3, 2), JumpImm(Jne, 3, 0, 4),
     JumpImm(Jeq, 8, 135, 3), JumpImm(Jeq, 8, 139, 2), JumpImm(Jeq, 8, 140, 1), Jump(5),
     Mov64Reg(1, 10), AluImm(Add, 1, ARG), CallStubItem(if record then ParseIpv6Nh else ParseIpv6Eh),
     Mov64Reg(8, 0), Jump(3),
     LdxMem(W, 2, 10, L3_OFFSET), AluImm(Add, 2, 40), StxMem(W, 10, 2, L4_OFFSET)]
  }

  function IpCode(record: bool): seq<Item> {
    SkipIf(JumpImm(Jne, 7, IP4, 0), V4Code()) + SkipIf(JumpImm(Jne, 7, IP6, 0), V6Code(record))
  }

  function L3Body(err: nat, accept: nat, record: bool): seq<Item> {
    SliceArgs(L3_SIZE, L3_OFFSET, L2_BUF) + SliceCode(err, accept) + [StxMem(DW, 10, 0, L3_HDR)] + IpCode(record)
  }

  function L3Code(err: nat, accept: nat, record: bool): seq<Item> {
    SwitchCode(7, L3_CASES, NO_L3) + SkipIf(JumpImm(Jeq, 7, 0, 0), L3Body(err, accept, record))
  }

  const L4_CASES := [Case(TCP, [Mov64Imm(4, 20)]), Case(UDP, [Mov64Imm(4, 8)]),
                     Case(ICMP, [Mov64Imm(4, 8)]), Case(ICMPV6, [Mov64Imm(4, 8)])]
  const NO_L4 := Otherwise([Mov64Imm(8, 0)])

  function L4Body(err: nat, accept: nat): seq<Item> {
    SliceArgs(L4_SIZE, L4_OFFSET, L4_BUF) + SliceCode(err, accept) + [StxMem(DW, 10, 0, L4_HDR)]
  }

  function L4Code(err: nat, accept: nat): seq<Item> {
    SwitchCode(8, L4_CASES, NO_L4) + SkipIf(JumpImm(Jeq, 8, 0, 0), L4Body(err, accept))
  }

  // ---- meaning ----

  /** The error exit: accept the packet and count it as an error. */
  predicate ErrorExit(o: Outcome, st: State, err: nat, accept: nat)
    requires HasNum(st, PKT_SIZE)
  {
    && o.Done? && o.st.regs[0] == Num(accept) && o.st.arg == st.arg && o.st.logs == st.logs
    && o.st.counters == Bump(st.counters, err, FrameNum(st, PKT_SIZE))
  }

  ghost predicate SameExcept(a: map<int, Slot>, b: map<int, Slot>, fields: set<int>) {
    forall k :: k !in fields ==> (k in a <==> k in b) && (k in a ==> a[k] == b[k])
  }

  predicate HasDynptr(st: State) {
    DYNPTR in st.frame && st.frame[DYNPTR].val == Dynptr
  }

  predicate Idle(a: State, b: State) {
    a.arg == b.arg && a.counters == b.counters && a.logs == b.logs
  }

  lemma SliceMeaning(env: Env, link: Link, err: nat, accept: nat, off: nat, len: nat, st: State)
    requires CanCount(st) && HasDynptr(st) && err < TWO31 && accept < TWO31
    requires st.regs[1] == Frame(DYNPTR) && st.regs[2] == Num(off) && st.regs[3].Frame? && st.regs[4] == Num(len)
    ensures var o := Run(env, link, SliceCode(err, accept), 0, st);
            if SliceOk(env, off, len) then
              && o.At? && o.k == 0 && o.st.regs[0] == Pkt(off, len)
              && SameEffects(o.st, st) && o.st.regs[6..] == st.regs[6..]
            else ErrorExit(o, st, err, accept)
  {
    hide Exec, Run, Bump, CountAndExit;
    var head, tail := [KernelCall(DynptrSlice)], SkipIf(JumpImm(Jne, 0, 0, 0), CountAndExit(err, accept));
    var s1 := StepKernel(env, link, head + tail, 0, st);
    assert s1.regs[6..] == st.regs[6..];
    assert s1.regs[10] == st.regs[10];
    RunShift(env, link, head, tail, 1, s1);
    SkipIfMeaning(env, link, JumpImm(Jne, 0, 0, 0), CountAndExit(err, accept), s1, SliceOk(env, off, len));
    if !SliceOk(env, off, len) {
      CountAndExitMeaning(env, link, err, accept, s1);
    }
  }

  lemma SliceArgsMeaning(env: Env, link: Link, sizeField: int, offField: int, buf: int, off: nat, len: nat, st: State)
    requires st.regs[10] == Frame(0) && st.regs[4] == Num(len) && len < TWO8
    requires offField in st.frame && st.frame[offField] == Slot(Num(off), 4) && off < TWO32
    requires -240 <= buf < 0 && offField != sizeField
    ensures var o := Run(env, link, SliceArgs(sizeField, offField, buf), 0, st);
            && o.At? && o.k == 0 && Idle(o.st, st) && o.st.regs[6..] == st.regs[6..]
            && o.st.frame == st.frame[sizeField := Slot(Num(len), 1)]
            && o.st.regs[1] == Frame(DYNPTR) && o.st.regs[2] == Num(off) && o.st.regs[3] == Frame(buf)
            && o.st.regs[4] == Num(len)
  {
    hide Exec, Run;
    var c := SliceArgs(sizeField, offField, buf);
    ModNoop(len, TWO8);
    ModNoop(off, TWO32);
    var s1 := StepStore(env, link, c, 0, st, Num(len));
    var s2 := StepReg(env, link, c, 1, s1, Frame(0));
    var s3 := StepImm(env, link, c, 2, s2, Frame(DYNPTR));
    var s4 := StepLoad(env, link, c, 3, s3, Num(off));
    var s5 := StepReg(env, link, c, 4, s4, Frame(0));
    var s6 := StepImm(env, link, c, 5, s5, Frame(buf));
    RunEnd(env, link, c, 6, s6);
  }

  lemma V4Length(env: Env, link: Link, l3off: nat, st: State) returns (s: State)
    requires st.regs[0] == Pkt(l3off, 20) && InData(env, l3off, 20)
    ensures Run(env, link, V4Code(), 0, st) == Run(env, link, V4Code(), 3, s)
    ensures s == WithReg(st, 1, Num(env.data[l3off] % 16 * 4))
  {
    hide Exec, Run, BitAnd, Load, Pow2;
    var c, b := V4Code(), env.data[l3off] as int;
    HeaderLength(b);
    ModNoop(b % 16 * 4, TWO64);
    var s1 := StepLoadByte(env, link, c, 0, st, l3off, 20);
    var s2 := StepImm(env, link, c, 1, s1, Num(b % 16));
    s := StepImm(env, link, c, 2, s2, Num(b % 16 * 4));
  }

  lemma V4Meaning(env: Env, link: Link, l3off: nat, st: State)
    requires st.regs[10] == Frame(0) && st.regs[0] == Pkt(l3off, 20) && InData(env, l3off, 20)
    requires L3_OFFSET in st.frame && st.frame[L3_OFFSET] == Slot(Num(l3off), 4) && l3off <= ETH_HLEN
    ensures var o := Run(env, link, V4Code(), 0, st);
            && o.At? && o.k == 0 && Idle(o.st, st)
            && o.st.frame == st.frame[L4_OFFSET := Slot(Num(l3off + env.data[l3off] % 16 * 4), 4)]
            && o.st.regs[8] == Num(env.data[l3off + 9]) && o.st.regs[7] == st.regs[7] && o.st.regs[10] == st.regs[10]
  {
    hide Exec, Run, BitAnd, Load, Pow2;
    var c, n := V4Code(), env.data[l3off] % 16 * 4;
    ModNoop(n + l3off, TWO64);
    ModNoop(n + l3off, TWO32);
    var s3 := V4Length(env, link, l3off, st);
    var s4 := StepLoadNum(env, link, c, 3, s3, l3off);
    var s5 := StepReg(env, link, c, 4, s4, Num(n + l3off));
    var s6 := StepStore(env, link, c, 5, s5, Num(n + l3off));
    var s7 := StepLoadByte(env, link, c, 6, s6, l3off, 20);
    RunEnd(env, link, c, 7, s7);
  }

  lemma HeaderLength(b: nat)
    ensures BitAnd(b, 0x0f) == b % 16 && Pow2(2) == 4
  {
    Pow2Small();
    AndLowOnes(b, 4);
  }

  /** Load a 32-bit number from a field of the frame. */
  lemma StepLoadNum(env: Env, link: Link, code: seq<Item>, pc: nat, st: State, n: nat) returns (st': State)
    requires pc < |code| && code[pc].insn.op == Ldx(W) && code[pc].insn.dst != 10
    requires st.regs[code[pc].insn.src] == Frame(0) && code[pc].insn.off in st.frame
    requires st.frame[code[pc].insn.off] == Slot(Num(n), 4) && n < TWO32
    ensures st' == WithReg(st, code[pc].insn.dst, Num(n))
    ensures Run(env, link, code, pc, st) == Run(env, link, code, pc + 1, st')
  {
    hide Exec, Run;
    ModNoop(n, TWO32);
    st' := StepLoad(env, link, code, pc, st, Num(n));
  }

  // ---- routing IPv6 packets around or through the extension-header walker ----

  lemma V6Front(record: bool)
    ensures var c := V6Code(record); |c| == 22
    ensures var c := V6Code(record);
            && c[0] == LdxMem(B, 8, 0, 6) && c[1] == JumpImm(Jeq, 8, TCP, 17) && c[2] == JumpImm(Jeq, 8, UDP, 16)
            && c[3] == Plain(LdImm64, 2, 0, 0, EH_MASK_LOW) && c[4] == Second(EH_MASK_HIGH)
            && c[5] == JumpImm(Jge, 8, 64, 4) && c[6] == Mov64Imm(3, 1)
  {
  }

  lemma V6Middle(record: bool)
    ensures var c := V6Code(record);
            && |c| == 22 && c[7] == AluReg(Lsh, 3, 8) && c[8] == AluReg(And, 3, 2) && c[9] == JumpImm(Jne, 3, 0, 4)
            && c[10] == JumpImm(Jeq, 8, 135, 3) && c[11] == JumpImm(Jeq, 8, 139, 2) && c[12] == JumpImm(Jeq, 8, 140, 1)
            && c[13] == Jump(5)
  {
  }

  lemma V6Back(record: bool)
    ensures var c := V6Code(record);
            && |c| == 22 && c[14] == Mov64Reg(1, 10) && c[15] == AluImm(Add, 1, ARG)
            && c[16] == CallStubItem(if record then ParseIpv6Nh else ParseIpv6Eh)
            && c[17] == Mov64Reg(8, 0) && c[18] == Jump(3) && c[19] == LdxMem(W, 2, 10, L3_OFFSET)
            && c[20] == AluImm(Add, 2, 40) && c[21] == StxMem(W, 10, 2, L4_OFFSET)
  {
  }

  lemma V6Layout(record: bool)
    ensures var c := V6Code(record); |c| == 22
    ensures var c := V6Code(record);
            && c[0] == LdxMem(B, 8, 0, 6) && c[1] == JumpImm(Jeq, 8, TCP, 17) && c[2] == JumpImm(Jeq, 8, UDP, 16)
            && c[3] == Plain(LdImm64, 2, 0, 0, EH_MASK_LOW) && c[4] == Second(EH_MASK_HIGH)
            && c[5] == JumpImm(Jge, 8, 64, 4) && c[6] == Mov64Imm(3, 1) && c[7] == AluReg(Lsh, 3, 8)
            && c[8] == AluReg(And, 3, 2) && c[9] == JumpImm(Jne, 3, 0, 4)
    ensures var c := V6Code(record);
            && c[10] == JumpImm(Jeq, 8, 135, 3) && c[11] == JumpImm(Jeq, 8, 139, 2) && c[12] == JumpImm(Jeq, 8, 140, 1)
            && c[13] == Jump(5) && c[14] == Mov64Reg(1, 10) && c[15] == AluImm(Add, 1, ARG)
            && c[16] == CallStubItem(if record then ParseIpv6Nh else ParseIpv6Eh)
            && c[17] == Mov64Reg(8, 0) && c[18] == Jump(3) && c[19] == LdxMem(W, 2, 10, L3_OFFSET)
            && c[20] == AluImm(Add, 2, 40) && c[21] == StxMem(W, 10, 2, L4_OFFSET)
  {
    hide V6Code;
    V6Front(record);
    V6Middle(record);
    V6Back(record);
  }

  const EH_MASK := EH_MASK_LOW + TWO32 * EH_MASK_HIGH

  lemma MaskSum()
    ensures EH_MASK == Pow2(0) + Pow2(11) + Pow2(47) + Pow2(48) + Pow2(59) + Pow2(60)
  {
    hide Pow2;
    Pow2Zero();
    Pow2Small();
    Pow2Values();
    Pow2Add(3, 8);
    Pow2Add(4, 8);
    Pow2Add(1, 47);
    Pow2Add(12, 48);
    Pow2Add(1, 59);
  }

  /** The bits of the 64-bit literal. */
  lemma MaskLiteral(k: nat)
    ensures Bit(EH_MASK, k) <==> k in {0, 11, 47, 48, 59, 60}
  {
    hide Bit, Pow2;
    MaskSum();
    var m0, m1, m2, m3, m4 := Pow2(0), Pow2(0) + Pow2(11), Pow2(0) + Pow2(11) + Pow2(47),
      Pow2(0) + Pow2(11) + Pow2(47) + Pow2(48), Pow2(0) + Pow2(11) + Pow2(47) + Pow2(48) + Pow2(59);
    ZeroHasNoBits(0);
    ZeroHasNoBits(k);
    ZeroHasNoBits(11);
    ZeroHasNoBits(47);
    ZeroHasNoBits(48);
    ZeroHasNoBits(59);
    ZeroHasNoBits(60);
    MaskStep(0, 0, 11, 47, 48, 59, 60, k);
    MaskStep(m0, 11, 11, 47, 48, 59, 60, k);
    MaskStep(m1, 47, 47, 47, 48, 59, 60, k);
    MaskStep(m2, 48, 48, 48, 48, 59, 60, k);
    MaskStep(m3, 59, 59, 59, 59, 59, 60, k);
    MaskStep(m4, 60, 60, 60, 60, 60, 60, k);
  }

  lemma MaskStep(m: nat, b: nat, j1: nat, j2: nat, j3: nat, j4: nat, j5: nat, k: nat)
    requires !Bit(m, b)
    ensures forall j :: j in {j1, j2, j3, j4, j5, k} ==> (Bit(m + Pow2(b), j) == (j == b || Bit(m, j)))
  {
    forall j | j in {j1, j2, j3, j4, j5, k}
      ensures Bit(m + Pow2(b), j) == (j == b || Bit(m, j))
    {
      AddPow2Bits(m, b, j);
    }
  }

  /** Shifting one by the next-header value and masking tests that bit of the literal. */
  lemma ShiftAndTest(nh: nat)
    requires nh < 64
    ensures 1 * Pow2(nh % 64) % TWO64 == Pow2(nh)
    ensures BitAnd(Pow2(nh), EH_MASK) != 0 <==> nh in {0, 11, 47, 48, 59, 60}
  {
    hide Bit, BitAnd, Pow2;
    ModNoop(nh, 64);
    Pow2Values();
    Pow2Mono(nh, 63);
    Pow2Top();
    ModNoop(Pow2(nh), TWO64);
    AndSingleBit(nh, EH_MASK);
    MaskLiteral(nh);
  }

  lemma Pow2Top()
    ensures Pow2(63) < TWO64
  {
    hide Pow2;
    Pow2Values();
    Pow2Add(1, 63);
    Pow2Small();
  }

  /** From the loaded next header at position 1 to the walker (14) or past it (19). */
  lemma RouteMeaning(env: Env, link: Link, record: bool, nh: nat, st: State) returns (s: State)
    requires st.regs[8] == Num(nh) && nh < TWO8
    ensures Run(env, link, V6Code(record), 1, st) == Run(env, link, V6Code(record), if Walked(nh) then 14 else 19, s)
    ensures SameEffects(s, st) && s.regs[7..] == st.regs[7..]
  {
    hide Exec, Run, V6Code, BitAnd, Pow2;
    var c := V6Code(record);
    V6Layout(record);
    StepTest(env, link, c, 1, st, nh);
    StepTest(env, link, c, 2, st, nh);
    s := st;
    if nh != TCP && nh != UDP {
      s := StepWide(env, link, c, 3, st);
      StepTest(env, link, c, 5, s, nh);
      if nh < 64 {
        s := LowRoute(env, link, record, nh, s);
      }
      if nh >= 64 || !Walked(nh) {
        HighRoute(env, link, record, nh, s);
      }
    }
  }

  lemma LowRoute(env: Env, link: Link, record: bool, nh: nat, st: State) returns (s: State)
    requires st.regs[8] == Num(nh) && nh < 64 && st.regs[2] == Num(EH_MASK)
    ensures Run(env, link, V6Code(record), 6, st) == Run(env, link, V6Code(record), if Walked(nh) then 14 else 10, s)
    ensures SameEffects(s, st) && s.regs[7..] == st.regs[7..]
  {
    hide Exec, Run, V6Code, BitAnd, Pow2;
    var c := V6Code(record);
    V6Layout(record);
    ShiftAndTest(nh);
    var s1 := StepImm(env, link, c, 6, st, Num(1));
    var s2 := StepReg(env, link, c, 7, s1, Num(Pow2(nh)));
    s := StepReg(env, link, c, 8, s2, Num(BitAnd(Pow2(nh), EH_MASK)));
    StepTest(env, link, c, 9, s, BitAnd(Pow2(nh), EH_MASK));
  }

  lemma HighRoute(env: Env, link: Link, record: bool, nh: nat, st: State)
    requires st.regs[8] == Num(nh) && nh < TWO8 && nh != TCP && nh != UDP && (nh < 64 ==> !Walked(nh))
    ensures Run(env, link, V6Code(record), 10, st) == Run(env, link, V6Code(record), if Walked(nh) then 14 else 19, st)
  {
    hide Exec, Run, V6Code;
    var c := V6Code(record);
    V6Layout(record);
    StepTest(env, link, c, 10, st, nh);
    StepTest(env, link, c, 11, st, nh);
    StepTest(env, link, c, 12, st, nh);
    StepJump(env, link, c, 13, st, true);
  }

  /** What the IPv6 block leaves behind, on either path. */
  predicate V6Outcome(env: Env, record: bool, l3off: nat, st: State, o: Outcome)
    requires InData(env, l3off, 40)
  {
    var nh := env.data[l3off + 6];
    var t := Ipv6Walk.Walk(env, l3off, Ipv6Walk.MAX_CHAIN);
    && o.At? && o.k == 0 && Idle(o.st, st) && o.st.regs[7] == st.regs[7] && o.st.regs[10] == st.regs[10]
    && if Walked(nh) then
         && o.st.regs[8] == Num(if record then t.proto else Ipv6Walk.EhResult(t))
         && o.st.frame == (if record
                           then st.frame[L4_OFFSET := Slot(Num(t.off), 4)]
                                [IPV6_EH := Slot(Num(Ipv6Walk.HeaderMask(t.types) % TWO8), 1)]
                           else st.frame[L4_OFFSET := Slot(Num(t.off), 4)])
       else
         && o.st.regs[8] == Num(nh) && o.st.frame == st.frame[L4_OFFSET := Slot(Num(l3off + 40), 4)]
  }

  lemma V6Meaning(env: Env, link: Link, record: bool, l3off: nat, st: State)
    requires st.regs[10] == Frame(0) && st.regs[0] == Pkt(l3off, 40) && InData(env, l3off, 40)
    requires L3_OFFSET in st.frame && st.frame[L3_OFFSET] == Slot(Num(l3off), 4) && l3off <= ETH_HLEN
    requires L3_HDR in st.frame && st.frame[L3_HDR] == Slot(Pkt(l3off, 40), 8)
    ensures V6Outcome(env, record, l3off, st, Run(env, link, V6Code(record), 0, st))
  {
    hide Exec, Run, V6Code, Load;
    var c, nh := V6Code(record), env.data[l3off + 6];
    V6Layout(record);
    var s1 := StepLoadByte(env, link, c, 0, st, l3off, 40);
    var s := RouteMeaning(env, link, record, nh, s1);
    assert s.regs[7] == s.regs[7..][0] && s.regs[8] == s.regs[7..][1] && s.regs[10] == s.regs[7..][3];
    assert s1.regs[7] == s1.regs[7..][0] && s1.regs[8] == s1.regs[7..][1] && s1.regs[10] == s1.regs[7..][3];
    if Walked(nh) {
      WalkPath(env, link, record, l3off, s);
    } else {
      PlainPath(env, link, record, l3off, s);
    }
  }

  lemma PlainPath(env: Env, link: Link, record: bool, l3off: nat, st: State)
    requires st.regs[10] == Frame(0) && L3_OFFSET in st.frame && st.frame[L3_OFFSET] == Slot(Num(l3off), 4)
    requires l3off <= ETH_HLEN
    ensures var o := Run(env, link, V6Code(record), 19, st);
            && o.At? && o.k == 0 && Idle(o.st, st) && o.st.regs[7..] == st.regs[7..]
            && o.st.frame == st.frame[L4_OFFSET := Slot(Num(l3off + 40), 4)]
  {
    hide Exec, Run, V6Code, Load;
    var c := V6Code(record);
    V6Layout(record);
    var s1 := StepLoadNum(env, link, c, 19, st, l3off);
    var s2 := StepImm(env, link, c, 20, s1, Num(l3off + 40));
    var s3 := StepStore(env, link, c, 21, s2, Num(l3off + 40));
    RunEnd(env, link, c, 22, s3);
  }

  lemma WalkPath(env: Env, link: Link, record: bool, l3off: nat, st: State)
    requires st.regs[10] == Frame(0) && InData(env, l3off, 40) && l3off <= ETH_HLEN
    requires L3_OFFSET in st.frame && st.frame[L3_OFFSET] == Slot(Num(l3off), 4)
    requires L3_HDR in st.frame && st.frame[L3_HDR] == Slot(Pkt(l3off, 40), 8)
    ensures var o := Run(env, link, V6Code(record), 14, st);
            var t := Ipv6Walk.Walk(env, l3off, Ipv6Walk.MAX_CHAIN);
            && o.At? && o.k == 0 && Idle(o.st, st) && o.st.regs[7] == st.regs[7] && o.st.regs[10] == st.regs[10]
            && o.st.regs[8] == Num(if record then t.proto else Ipv6Walk.EhResult(t))
            && o.st.frame == (if record
                              then st.frame[L4_OFFSET := Slot(Num(t.off), 4)]
                                   [IPV6_EH := Slot(Num(Ipv6Walk.HeaderMask(t.types) % TWO8), 1)]
                              else st.frame[L4_OFFSET := Slot(Num(t.off), 4)])
  {
    hide Exec, Run, V6Code, Ipv6Walk.Walk, Ipv6Walk.HeaderMask;
    var c, t := V6Code(record), Ipv6Walk.Walk(env, l3off, Ipv6Walk.MAX_CHAIN);
    V6Layout(record);
    Ipv6Walk.WalkersAgree(env, l3off);
    ModNoop(t.off, TWO32);
    var s1 := StepReg(env, link, c, 14, st, Frame(0));
    var s2 := StepImm(env, link, c, 15, s1, Frame(ARG));
    var s3 := StepWalk(env, link, c, 16, s2, record);
    var s4 := StepReg(env, link, c, 17, s3, s3.regs[0]);
    StepJump(env, link, c, 18, s4, true);
    RunEnd(env, link, c, 22, s4);
  }

  // ---- network layer ----

  predicate EhStored(st: State, record: bool, eh: nat) {
    record ==> IPV6_EH in st.frame && st.frame[IPV6_EH].val == Num(eh)
               && (st.frame[IPV6_EH].width == 1 || st.frame[IPV6_EH].width == 8)
  }

  const L3_FIELDS := {L3_SIZE, L3_HDR, L4_OFFSET, IPV6_EH}

  /** The transport protocol is in r8, its offset and the network header in the context. */
  ghost predicate Located(record: bool, l3: nat, l3off: nat, found: Found, st: State, st': State)
    requires found.Found?
  {
    && Idle(st', st) && st'.regs[7] == Num(l3) && st'.regs[8] == Num(found.proto) && st'.regs[10] == Frame(0)
    && L3_HDR in st'.frame && st'.frame[L3_HDR] == Slot(Pkt(l3off, L3Len(l3)), 8)
    && L4_OFFSET in st'.frame && st'.frame[L4_OFFSET] == Slot(Num(found.off), 4) && found.off < TWO32
    && EhStored(st', record, found.eh) && SameExcept(st'.frame, st.frame, L3_FIELDS)
  }

  /** The context before the network layer is parsed. */
  predicate Linked(record: bool, l3: nat, l3off: nat, st: State) {
    && st.regs[10] == Frame(0) && st.regs[7] == Num(l3) && st.regs[8] == Num(0) && l3 < TWO16 && l3off <= ETH_HLEN
    && HasDynptr(st) && HasNum(st, PKT_SIZE)
    && L3_OFFSET in st.frame && st.frame[L3_OFFSET] == Slot(Num(l3off), 4)
    && (record ==> IPV6_EH in st.frame && st.frame[IPV6_EH] == Slot(Num(0), 8))
  }

  lemma IpMeaning(env: Env, link: Link, record: bool, l3: nat, l3off: nat, st: State)
    requires KnownL3(l3) && SliceOk(env, l3off, L3Len(l3)) && l3off <= ETH_HLEN
    requires st.regs[10] == Frame(0) && st.regs[0] == Pkt(l3off, L3Len(l3)) && st.regs[7] == Num(l3)
    requires L3_OFFSET in st.frame && st.frame[L3_OFFSET] == Slot(Num(l3off), 4)
    requires L3_HDR in st.frame && st.frame[L3_HDR] == Slot(Pkt(l3off, L3Len(l3)), 8)
    requires EhStored(st, record, 0)
    ensures var o := Run(env, link, IpCode(record), 0, st);
            o.At? && o.k == 0 && Located(record, l3, l3off, FindL4(env, record, l3, l3off), st, o.st)
  {
    hide Exec, Run, V4Code, V6Code, Ipv6Walk.Walk, Ipv6Walk.HeaderMask, SliceOk;
    assert InData(env, l3off, L3Len(l3)) by { SliceInData(env, l3off, L3Len(l3)); }
    var j4, j6 := JumpImm(Jne, 7, IP4, 0), JumpImm(Jne, 7, IP6, 0);
    V4Closed();
    RunConcat(env, link, SkipIf(j4, V4Code()), SkipIf(j6, V6Code(record)), 0, st);
    SkipIfMeaning(env, link, j4, V4Code(), st, l3 != IP4);
    if l3 == IP4 {
      V4Meaning(env, link, l3off, st);
      var s := Run(env, link, V4Code(), 0, st).st;
      SkipIfMeaning(env, link, j6, V6Code(record), s, true);
    } else {
      SkipIfMeaning(env, link, j6, V6Code(record), st, false);
      V6Meaning(env, link, record, l3off, st);
      Ipv6Walk.WalkersAgree(env, l3off);
    }
  }

  lemma SliceInData(env: Env, off: nat, len: nat)
    requires SliceOk(env, off, len)
    ensures InData(env, off, len)
  {
  }

  lemma V4Closed()
    ensures Closed(SkipIf(JumpImm(Jne, 7, IP4, 0), V4Code())) && |V4Code()| == 7
  {
  }

  /** A slice of the layer's header, or the error exit. */
  lemma AskMeaning(env: Env, link: Link, err: nat, accept: nat, sizeField: int, offField: int, buf: int,
                   off: nat, len: nat, st: State)
    requires CanCount(st) && HasDynptr(st) && err < TWO31 && accept < TWO31
    requires st.regs[4] == Num(len) && len < TWO8
    requires offField in st.frame && st.frame[offField] == Slot(Num(off), 4) && off < TWO32
    requires -240 <= buf < 0 && sizeField !in {offField, DYNPTR, PKT_SIZE}
    ensures var o := Run(env, link, SliceArgs(sizeField, offField, buf) + SliceCode(err, accept), 0, st);
            if SliceOk(env, off, len) then
              && o.At? && o.k == 0 && o.st.regs[0] == Pkt(off, len) && Idle(o.st, st)
              && o.st.frame == st.frame[sizeField := Slot(Num(len), 1)] && o.st.regs[6..] == st.regs[6..]
            else ErrorExit(o, st, err, accept)
  {
    hide Exec, Run, SliceArgs, SliceCode, SliceOk, Bump;
    var a := SliceArgs(sizeField, offField, buf);
    SliceArgsMeaning(env, link, sizeField, offField, buf, off, len, st);
    SliceArgsClosed(sizeField, offField, buf);
    RunConcat(env, link, a, SliceCode(err, accept), 0, st);
    var s := Run(env, link, a, 0, st).st;
    assert s.regs[10] == s.regs[6..][4] && st.regs[10] == st.regs[6..][4];
    SliceMeaning(env, link, err, accept, off, len, s);
  }

  lemma SliceArgsClosed(sizeField: int, offField: int, buf: int)
    ensures Closed(SliceArgs(sizeField, offField, buf))
  {
  }

  lemma SliceCodeClosed(err: nat, accept: nat)
    ensures Closed(SliceCode(err, accept)) && SliceCode(err, accept) != []
  {
    var c := SliceCode(err, accept);
    assert c[|c| - 1] == ExitInsn();
  }

  lemma AskClosed(err: nat, accept: nat, sizeField: int, offField: int, buf: int)
    ensures Closed(SliceArgs(sizeField, offField, buf) + SliceCode(err, accept))
  {
    SliceCodeClosed(err, accept);
    var a, b := SliceArgs(sizeField, offField, buf), SliceCode(err, accept);
    assert (a + b)[|a + b| - 1] == b[|b| - 1];
  }

  lemma HighRegs(a: State, b: State)
    requires a.regs[6..] == b.regs[6..]
    ensures a.regs[7] == b.regs[7] && a.regs[8] == b.regs[8] && a.regs[10] == b.regs[10]
  {
    assert a.regs[7] == a.regs[6..][1] && a.regs[8] == a.regs[6..][2] && a.regs[10] == a.regs[6..][4];
    assert b.regs[7] == b.regs[6..][1] && b.regs[8] == b.regs[6..][2] && b.regs[10] == b.regs[6..][4];
  }

  lemma L3BodyMeaning(env: Env, link: Link, err: nat, accept: nat, record: bool, l3: nat, l3off: nat, st: State)
    requires Linked(record, l3, l3off, st) && KnownL3(l3) && err < TWO31 && accept < TWO31
    requires st.regs[4] == Num(L3Len(l3))
    ensures var o := Run(env, link, L3Body(err, accept, record), 0, st);
            var found := FindL4(env, record, l3, l3off);
            if found.Refused? then ErrorExit(o, st, err, accept)
            else o.At? && o.k == 0 && Located(record, l3, l3off, found, st, o.st)
  {
    hide Exec, Run, SliceArgs, SliceCode, SliceOk, Bump, IpCode, Ipv6Walk.Walk, Ipv6Walk.HeaderMask, Walked;
    var ask, rest := SliceArgs(L3_SIZE, L3_OFFSET, L2_BUF) + SliceCode(err, accept),
      [StxMem(DW, 10, 0, L3_HDR)] + IpCode(record);
    assert L3Body(err, accept, record) == ask + rest;
    AskClosed(err, accept, L3_SIZE, L3_OFFSET, L2_BUF);
    RunConcat(env, link, ask, rest, 0, st);
    AskMeaning(env, link, err, accept, L3_SIZE, L3_OFFSET, L2_BUF, l3off, L3Len(l3), st);
    if SliceOk(env, l3off, L3Len(l3)) {
      var s := Run(env, link, ask, 0, st).st;
      HighRegs(s, st);
      var s1 := StepStorePtr(env, link, rest, 0, s);
      RunShift(env, link, [rest[0]], IpCode(record), 1, s1);
      IpMeaning(env, link, record, l3, l3off, s1);
    }
  }

  lemma L3Choice(l3: nat)
    ensures Chosen(L3_CASES, NO_L3, l3) == if KnownL3(l3) then [Mov64Imm(4, L3Len(l3))] else [Mov64Imm(7, 0)]
    ensures ClosedBodies(L3_CASES, NO_L3)
  {
    SelectsSmall(IP4, l3);
    SelectsSmall(IP6, l3);
    var i := First(L3_CASES, l3);
    assert L3_CASES[0].imm == IP4 && L3_CASES[1].imm == IP6;
  }

  /** A switch whose chosen body is one move of a small number. */
  lemma MoveSwitch(env: Env, link: Link, reg: Reg, cases: seq<Case>, default: Default, d: Reg, imm: nat, st: State)
    requires default.Otherwise? && ClosedBodies(cases, default) && st.regs[reg].Num? && d != 10 && imm < TWO31
    requires Chosen(cases, default, st.regs[reg].n) == [Mov64Imm(d, imm)]
    ensures Run(env, link, SwitchCode(reg, cases, default), 0, st) == At(0, WithReg(st, d, Num(imm)))
  {
    hide Exec, Run, SwitchCode, Chosen, ClosedBodies;
    var body := [Mov64Imm(d, imm)];
    ModNoop(imm, TWO64);
    var s := StepImm(env, link, body, 0, st, Num(imm));
    RunEnd(env, link, body, 1, s);
    SwitchMeaning(env, link, reg, cases, default, st);
  }

  lemma L3Meaning(env: Env, link: Link, err: nat, accept: nat, record: bool, l3: nat, l3off: nat, st: State)
    requires Linked(record, l3, l3off, st) && err < TWO31 && accept < TWO31
    ensures var o := Run(env, link, L3Code(err, accept, record), 0, st);
            if !KnownL3(l3) then
              o.At? && o.k == 0 && o.st == WithReg(st, 7, Num(0))
            else
              var found := FindL4(env, record, l3, l3off);
              if found.Refused? then ErrorExit(o, st, err, accept)
              else o.At? && o.k == 0 && Located(record, l3, l3off, found, st, o.st)
  {
    hide Exec, Run, SwitchCode, L3Body, Chosen, FindL4, Bump;
    var sw, jump := SwitchCode(7, L3_CASES, NO_L3), JumpImm(Jeq, 7, 0, 0);
    SwitchClosed(7, L3_CASES, [Mov64Imm(7, 0)]);
    RunConcat(env, link, sw, SkipIf(jump, L3Body(err, accept, record)), 0, st);
    L3Choice(l3);
    if KnownL3(l3) {
      MoveSwitch(env, link, 7, L3_CASES, NO_L3, 4, L3Len(l3), st);
      var s := WithReg(st, 4, Num(L3Len(l3)));
      SkipIfMeaning(env, link, jump, L3Body(err, accept, record), s, false);
      L3BodyMeaning(env, link, err, accept, record, l3, l3off, s);
    } else {
      MoveSwitch(env, link, 7, L3_CASES, NO_L3, 7, 0, st);
      SkipIfMeaning(env, link, jump, L3Body(err, accept, record), WithReg(st, 7, Num(0)), true);
    }
  }

  // ---- transport layer ----

  lemma L4Choice(l4: nat)
    ensures Chosen(L4_CASES, NO_L4, l4) == if KnownL4(l4) then [Mov64Imm(4, L4Len(l4))] else [Mov64Imm(8, 0)]
    ensures ClosedBodies(L4_CASES, NO_L4)
  {
    SelectsSmall(TCP, l4);
    SelectsSmall(UDP, l4);
    SelectsSmall(ICMP, l4);
    SelectsSmall(ICMPV6, l4);
    var i := First(L4_CASES, l4);
    assert L4_CASES[0].imm == TCP && L4_CASES[1].imm == UDP && L4_CASES[2].imm == ICMP && L4_CASES[3].imm == ICMPV6;
  }

  /** The transport header address is in the context exactly when the protocol is supported. */
  predicate Transported(l4: nat, l4off: nat, st: State, st': State) {
    && Idle(st', st) && st'.regs[7] == st.regs[7] && st'.regs[10] == st.regs[10]
    && if KnownL4(l4) then
         && st'.regs[8] == Num(l4)
         && st'.frame == st.frame[L4_SIZE := Slot(Num(L4Len(l4)), 1)][L4_HDR := Slot(Pkt(l4off, L4Len(l4)), 8)]
       else st'.regs[8] == Num(0) && st'.frame == st.frame
  }

  lemma L4BodyMeaning(env: Env, link: Link, err: nat, accept: nat, l4: nat, l4off: nat, st: State)
    requires CanCount(st) && HasDynptr(st) && err < TWO31 && accept < TWO31
    requires KnownL4(l4) && st.regs[8] == Num(l4) && st.regs[4] == Num(L4Len(l4))
    requires L4_OFFSET in st.frame && st.frame[L4_OFFSET] == Slot(Num(l4off), 4) && l4off < TWO32
    ensures var o := Run(env, link, L4Body(err, accept), 0, st);
            if SliceOk(env, l4off, L4Len(l4)) then o.At? && o.k == 0 && Transported(l4, l4off, st, o.st)
            else ErrorExit(o, st, err, accept)
  {
    hide Exec, Run, SliceArgs, SliceCode, SliceOk, Bump;
    var ask, rest := SliceArgs(L4_SIZE, L4_OFFSET, L4_BUF) + SliceCode(err, accept), [StxMem(DW, 10, 0, L4_HDR)];
    AskClosed(err, accept, L4_SIZE, L4_OFFSET, L4_BUF);
    RunConcat(env, link, ask, rest, 0, st);
    AskMeaning(env, link, err, accept, L4_SIZE, L4_OFFSET, L4_BUF, l4off, L4Len(l4), st);
    if SliceOk(env, l4off, L4Len(l4)) {
      var s := Run(env, link, ask, 0, st).st;
      HighRegs(s, st);
      var s1 := StepStorePtr(env, link, rest, 0, s);
      RunEnd(env, link, rest, 1, s1);
    }
  }

  lemma L4Meaning(env: Env, link: Link, err: nat, accept: nat, l4: nat, l4off: nat, st: State)
    requires CanCount(st) && HasDynptr(st) && err < TWO31 && accept < TWO31 && st.regs[8] == Num(l4)
    requires KnownL4(l4) ==> L4_OFFSET in st.frame && st.frame[L4_OFFSET] == Slot(Num(l4off), 4) && l4off < TWO32
    ensures var o := Run(env, link, L4Code(err, accept), 0, st);
            if KnownL4(l4) && !SliceOk(env, l4off, L4Len(l4)) then ErrorExit(o, st, err, accept)
            else o.At? && o.k == 0 && Transported(l4, l4off, st, o.st)
  {
    hide Exec, Run, SwitchCode, L4Body, Chosen, Bump, SliceOk;
    var sw, jump := SwitchCode(8, L4_CASES, NO_L4), JumpImm(Jeq, 8, 0, 0);
    SwitchClosed(8, L4_CASES, [Mov64Imm(8, 0)]);
    RunConcat(env, link, sw, SkipIf(jump, L4Body(err, accept)), 0, st);
    L4Choice(l4);
    if KnownL4(l4) {
      MoveSwitch(env, link, 8, L4_CASES, NO_L4, 4, L4Len(l4), st);
      var s := WithReg(st, 4, Num(L4Len(l4)));
      SkipIfMeaning(env, link, jump, L4Body(err, accept), s, false);
      L4BodyMeaning(env, link, err, accept, l4, l4off, s);
    } else {
      MoveSwitch(env, link, 8, L4_CASES, NO_L4, 8, 0, st);
      SkipIfMeaning(env, link, jump, L4Body(err, accept), WithReg(st, 8, Num(0)), true);
    }
  }

  // ---- entry, packet metadata, dynamic pointer, link layer ----

  /** A program starts with its argument in r1 and nothing on its stack. */
  predicate AtStart(st: State) {
    st.regs[1] == Arg && st.regs[10] == Frame(0) && st.frame == map[]
  }

  function EntryFrame(link: Link, flags: Flags): map<int, Slot> {
    var f0 := map[ARG := Slot(Arg, 8)];
    var f1 := if flags.log then f0[LOG_MAP := Slot(MapRef(link.log), 8)] else f0;
    if flags.storeNexthdr then f1[IPV6_EH := Slot(Num(0), 8)] else f1
  }

  lemma EntryMeaning(env: Env, link: Link, flags: Flags, st: State)
    requires AtStart(st)
    ensures var o := Run(env, link, EntryCode(flags), 0, st);
            && o.At? && o.k == 0 && Idle(o.st, st) && o.st.frame == EntryFrame(link, flags)
            && o.st.regs[1] == Arg && o.st.regs[7] == Num(0) && o.st.regs[8] == Num(0) && o.st.regs[10] == Frame(0)
  {
    hide Exec, Run;
    var c := EntryCode(flags);
    var s := StepStorePtr(env, link, c, 0, st);
    s := StepImm(env, link, c, 1, s, Num(0));
    s := StepImm(env, link, c, 2, s, Num(0));
    var pc := 3;
    if flags.log {
      s := StepMap(env, link, c, 3, s, LogMap);
      s := StepStorePtr(env, link, c, 5, s);
      pc := 6;
    }
    if flags.storeNexthdr {
      s := StepStore(env, link, c, pc, s, Num(0));
      pc := pc + 1;
    }
    RunEnd(env, link, c, pc, s);
  }

  predicate Measured(hook: Hook, st: State, st': State)
    requires ArgOk(hook, st.arg)
  {
    && Idle(st', st) && st'.regs[1] == Arg && st'.regs[7] == st.regs[7] && st'.regs[8] == st.regs[8]
    && st'.regs[10] == st.regs[10]
    && st'.frame == st.frame[PKT_SIZE := Slot(Num(PacketSize(hook, st.arg)), 8)]
                            [IFINDEX := Slot(Num(Interface(hook, st.arg)), 4)]
  }

  function MetaCode(hook: Hook): seq<Item> {
    if hook.Xdp? then XdpMetaCode() else if IsCgroup(hook) then CgroupMetaCode() else TcMetaCode()
  }

  /** Load a field of the program argument. */
  lemma StepLoadArg(env: Env, link: Link, code: seq<Item>, pc: nat, st: State) returns (st': State)
    requires pc < |code| && code[pc].insn.op == Ldx(W) && code[pc].insn.dst != 10
    requires st.regs[code[pc].insn.src] == Arg && code[pc].insn.off in st.arg
    ensures st' == WithReg(st, code[pc].insn.dst, Num(st.arg[code[pc].insn.off]))
    ensures Run(env, link, code, pc, st) == Run(env, link, code, pc + 1, st')
  {
    hide Exec, Run;
    st' := StepLoad(env, link, code, pc, st, Num(st.arg[code[pc].insn.off]));
  }

  lemma XdpMetaMeaning(env: Env, link: Link, hook: Hook, st: State)
    requires hook.Xdp? && ArgOk(hook, st.arg) && st.regs[1] == Arg && st.regs[10] == Frame(0)
    ensures var o := Run(env, link, MetaCode(hook), 0, st);
            o.At? && o.k == 0 && Measured(hook, st, o.st)
  {
    hide Exec, Run, Load;
    var c, size, ifindex := MetaCode(hook), PacketSize(hook, st.arg), Interface(hook, st.arg);
    ModNoop(size, TWO64);
    ModNoop(ifindex, TWO32);
    var s1 := StepLoadArg(env, link, c, 0, st);
    var s2 := StepLoadArg(env, link, c, 1, s1);
    var s3 := StepReg(env, link, c, 2, s2, Num(size));
    var s4 := StepStore(env, link, c, 3, s3, Num(size));
    var s5 := StepLoadArg(env, link, c, 4, s4);
    var s6 := StepStore(env, link, c, 5, s5, Num(ifindex));
    RunEnd(env, link, c, 6, s6);
  }

  lemma CgroupMetaMeaning(env: Env, link: Link, hook: Hook, st: State)
    requires IsCgroup(hook) && ArgOk(hook, st.arg) && st.regs[1] == Arg && st.regs[10] == Frame(0)
    ensures var o := Run(env, link, MetaCode(hook), 0, st);
            o.At? && o.k == 0 && Measured(hook, st, o.st)
  {
    hide Exec, Run, Load;
    var c, size, ifindex := MetaCode(hook), PacketSize(hook, st.arg), Interface(hook, st.arg);
    ModNoop(size, TWO64);
    ModNoop(ifindex, TWO32);
    var s1 := StepLoadArg(env, link, c, 0, st);
    var s2 := StepImm(env, link, c, 1, s1, Num(size));
    var s3 := StepStore(env, link, c, 2, s2, Num(size));
    var s4 := StepLoadArg(env, link, c, 3, s3);
    var s5 := StepStore(env, link, c, 4, s4, Num(ifindex));
    RunEnd(env, link, c, 5, s5);
  }

  lemma TcMetaMeaning(env: Env, link: Link, hook: Hook, st: State)
    requires !hook.Xdp? && !IsCgroup(hook) && ArgOk(hook, st.arg) && st.regs[1] == Arg && st.regs[10] == Frame(0)
    ensures var o := Run(env, link, MetaCode(hook), 0, st);
            o.At? && o.k == 0 && Measured(hook, st, o.st)
  {
    hide Exec, Run, Load;
    var c, size, ifindex := MetaCode(hook), PacketSize(hook, st.arg), Interface(hook, st.arg);
    ModNoop(size, TWO64);
    ModNoop(ifindex, TWO32);
    var s1 := StepLoadArg(env, link, c, 0, st);
    var s2 := StepStore(env, link, c, 1, s1, Num(size));
    var s3 := StepLoadArg(env, link, c, 2, s2);
    var s4 := StepStore(env, link, c, 3, s3, Num(ifindex));
    RunEnd(env, link, c, 4, s4);
  }

  lemma MetaMeaning(env: Env, link: Link, hook: Hook, st: State)
    requires ArgOk(hook, st.arg) && st.regs[1] == Arg && st.regs[10] == Frame(0)
    ensures var o := Run(env, link, MetaCode(hook), 0, st);
            o.At? && o.k == 0 && Measured(hook, st, o.st)
  {
    hide Exec, Run, MetaCode, Measured, ArgOk;
    if hook.Xdp? {
      XdpMetaMeaning(env, link, hook, st);
    } else if IsCgroup(hook) {
      CgroupMetaMeaning(env, link, hook, st);
    } else {
      TcMetaMeaning(env, link, hook, st);
    }
  }

  lemma FamilyChoice(family: nat)
    ensures Chosen(FAMILY_CASES, NO_FAMILY, family) == [Mov64Imm(7, FamilyProto(family))]
    ensures ClosedBodies(FAMILY_CASES, NO_FAMILY)
  {
    SelectsSmall(AF_INET, family);
    SelectsSmall(AF_INET6, family);
    var i := First(FAMILY_CASES, family);
    assert FAMILY_CASES[0].imm == AF_INET && FAMILY_CASES[1].imm == AF_INET6;
  }

  lemma FamilyMeaning(env: Env, link: Link, st: State)
    requires st.regs[1] == Arg && st.regs[10] == Frame(0) && HasField(st.arg, SKB_FAMILY)
    ensures var o := Run(env, link, FamilyCode(), 0, st);
            && o.At? && o.k == 0 && Idle(o.st, st) && o.st.regs[1] == Arg && o.st.regs[8] == st.regs[8]
            && o.st.regs[10] == Frame(0) && o.st.regs[7] == Num(FamilyProto(st.arg[SKB_FAMILY]))
            && o.st.frame == st.frame[L3_OFFSET := Slot(Num(0), 4)]
  {
    hide Exec, Run, SwitchCode, Chosen;
    var head, sw, tail := [LdxMem(W, 2, 1, SKB_FAMILY)], SwitchCode(2, FAMILY_CASES, NO_FAMILY),
      [StMem(W, 10, L3_OFFSET, 0)];
    assert FamilyCode() == head + (sw + tail);
    var s1 := StepLoadArg(env, link, head + (sw + tail), 0, st);
    RunShift(env, link, head, sw + tail, 1, s1);
    SwitchClosed(2, FAMILY_CASES, [Mov64Imm(7, 0)]);
    RunConcat(env, link, sw, tail, 0, s1);
    FamilyChoice(st.arg[SKB_FAMILY]);
    MoveSwitch(env, link, 2, FAMILY_CASES, NO_FAMILY, 7, FamilyProto(st.arg[SKB_FAMILY]), s1);
    var s2 := WithReg(s1, 7, Num(FamilyProto(st.arg[SKB_FAMILY])));
    var s3 := StepStore(env, link, tail, 0, s2, Num(0));
    RunEnd(env, link, tail, 1, s3);
  }

  lemma DynptrMeaning(env: Env, link: Link, err: nat, accept: nat, st: State)
    requires CanCount(st) && st.regs[1] == Arg && err < TWO31 && accept < TWO31
    ensures var o := Run(env, link, DynptrCode(err, accept), 0, st);
            if env.dynptrOk then
              && o.At? && o.k == 0 && Idle(o.st, st) && o.st.regs[6..] == st.regs[6..]
              && o.st.frame == st.frame[DYNPTR := Slot(Dynptr, 16)]
            else ErrorExit(o, st, err, accept)
  {
    hide Exec, Run, Bump, CountAndExit;
    var head := [Mov64Imm(2, 0), Mov64Reg(3, 10), AluImm(Add, 3, DYNPTR), KernelCall(DynptrFrom)];
    var tail := SkipIf(JumpImm(Jeq, 0, 0, 0), CountAndExit(err, accept));
    var c := head + tail;
    var s1 := StepImm(env, link, c, 0, st, Num(0));
    var s2 := StepReg(env, link, c, 1, s1, Frame(0));
    var s3 := StepImm(env, link, c, 2, s2, Frame(DYNPTR));
    assert s3.regs[6..] == st.regs[6..];
    var s4 := StepKernel(env, link, c, 3, s3);
    assert s4.regs[6..] == s3.regs[6..];
    RunShift(env, link, head, tail, 4, s4);
    SkipIfMeaning(env, link, JumpImm(Jeq, 0, 0, 0), CountAndExit(err, accept), s4, env.dynptrOk);
    if !env.dynptrOk {
      assert s4.regs[10] == s4.regs[6..][4] && st.regs[10] == st.regs[6..][4];
      CountAndExitMeaning(env, link, err, accept, s4);
    }
  }

  lemma L2ArgsMeaning(env: Env, link: Link, rest: seq<Item>, st: State) returns (s: State)
    requires st.regs[10] == Frame(0)
    ensures Run(env, link, L2Args() + rest, 0, st) == Run(env, link, rest, 0, s)
    ensures Idle(s, st) && s.regs[6..] == st.regs[6..] && s.frame == st.frame[L2_SIZE := Slot(Num(ETH_HLEN), 1)]
    ensures s.regs[1] == Frame(DYNPTR) && s.regs[2] == Num(0) && s.regs[3].Frame? && s.regs[4] == Num(ETH_HLEN)
  {
    hide Exec, Run;
    var c := L2Args() + rest;
    s := StepReg(env, link, c, 0, st, Frame(0));
    s := StepImm(env, link, c, 1, s, Frame(DYNPTR));
    s := StepImm(env, link, c, 2, s, Num(0));
    s := StepReg(env, link, c, 3, s, Frame(0));
    s := StepImm(env, link, c, 4, s, Frame(L2_BUF));
    s := StepImm(env, link, c, 5, s, Num(ETH_HLEN));
    s := StepStore(env, link, c, 6, s, Num(ETH_HLEN));
    RunShift(env, link, L2Args(), rest, 7, s);
  }

  lemma L2Meaning(env: Env, link: Link, err: nat, accept: nat, st: State)
    requires CanCount(st) && HasDynptr(st) && err < TWO31 && accept < TWO31
    ensures var o := Run(env, link, L2Code(err, accept), 0, st);
            if SliceOk(env, 0, ETH_HLEN) then
              && o.At? && o.k == 0 && Idle(o.st, st) && o.st.regs[8] == st.regs[8] && o.st.regs[10] == st.regs[10]
              && o.st.regs[7] == Num(Le16(env, 12))
              && o.st.frame == st.frame[L2_SIZE := Slot(Num(ETH_HLEN), 1)][L2_HDR := Slot(Pkt(0, ETH_HLEN), 8)]
                                       [L3_OFFSET := Slot(Num(ETH_HLEN), 4)]
            else ErrorExit(o, st, err, accept)
  {
    hide Exec, Run, Bump, SliceCode, Le16;
    var tail := [StxMem(DW, 10, 0, L2_HDR), LdxMem(H, 7, 0, 12), StMem(W, 10, L3_OFFSET, ETH_HLEN)];
    assert L2Code(err, accept) == L2Args() + (SliceCode(err, accept) + tail);
    var s := L2ArgsMeaning(env, link, SliceCode(err, accept) + tail, st);
    HighRegs(s, st);
    SliceCodeClosed(err, accept);
    RunConcat(env, link, SliceCode(err, accept), tail, 0, s);
    SliceMeaning(env, link, err, accept, 0, ETH_HLEN, s);
    if SliceOk(env, 0, ETH_HLEN) {
      var s1 := Run(env, link, SliceCode(err, accept), 0, s).st;
      HighRegs(s1, s);
      var s2 := StepStorePtr(env, link, tail, 0, s1);
      var s3 := StepLoad(env, link, tail, 1, s2, Num(Le16(env, 12)));
      var s4 := StepStore(env, link, tail, 2, s3, Num(ETH_HLEN));
      RunEnd(env, link, tail, 3, s4);
    }
  }

  // ---- the whole prologue ----

  /** Everything before the network layer, after the entry code. */
  function HeadCode(hook: Hook, err: nat, accept: nat): seq<Item> {
    if IsCgroup(hook) then MetaCode(hook) + (FamilyCode() + DynptrCode(err, accept))
    else MetaCode(hook) + (DynptrCode(err, accept) + L2Code(err, accept))
  }

  function PrologueCode(hook: Hook, flags: Flags, err: nat, accept: nat): seq<Item> {
    EntryCode(flags)
    + (HeadCode(hook, err, accept) + (L3Code(err, accept, flags.storeNexthdr) + L4Code(err, accept)))
  }

  /** Network protocol and offset as the link layer or the socket family tell, if visible. */
  function LinkProto(hook: Hook, env: Env, arg: map<int, nat>): Found
    requires ArgOk(hook, arg)
  {
    if !env.dynptrOk then Refused
    else if IsCgroup(hook) then Found(FamilyProto(arg[SKB_FAMILY]), 0, 0)
    else if !SliceOk(env, 0, ETH_HLEN) then Refused
    else Found(Le16(env, 12), ETH_HLEN, 0)
  }

  lemma MetaClosed(hook: Hook)
    ensures Closed(MetaCode(hook)) && Closed(FamilyCode()) && Closed(EntryCode(NO_FLAGS))
  {
    var f := FamilyCode();
    assert f[|f| - 1] == StMem(W, 10, L3_OFFSET, 0);
  }

  lemma DynptrClosed(err: nat, accept: nat)
    ensures Closed(DynptrCode(err, accept))
  {
    var c := DynptrCode(err, accept);
    assert c[|c| - 1] == ExitInsn();
  }

  const HEAD_FIELDS := {PKT_SIZE, IFINDEX, DYNPTR, L2_SIZE, L2_HDR, L3_OFFSET}

  lemma HeadMeaning(env: Env, link: Link, hook: Hook, err: nat, accept: nat, st: State)
    requires ArgOk(hook, st.arg) && st.regs[1] == Arg && st.regs[10] == Frame(0)
    requires err < TWO31 && accept < TWO31
    ensures var o := Run(env, link, HeadCode(hook, err, accept), 0, st);
            var found := LinkProto(hook, env, st.arg);
            if found.Refused? then
              && o.Done? && o.st.regs[0] == Num(accept) && o.st.arg == st.arg && o.st.logs == st.logs
              && o.st.counters == Bump(st.counters, err, PacketSize(hook, st.arg))
            else
              && o.At? && o.k == 0 && Idle(o.st, st) && o.st.regs[7] == Num(found.proto) && o.st.regs[8] == st.regs[8]
              && o.st.regs[10] == Frame(0) && HasDynptr(o.st) && L3_OFFSET in o.st.frame
              && o.st.frame[L3_OFFSET] == Slot(Num(found.off), 4)
              && PKT_SIZE in o.st.frame && o.st.frame[PKT_SIZE] == Slot(Num(PacketSize(hook, st.arg)), 8)
              && IFINDEX in o.st.frame && o.st.frame[IFINDEX] == Slot(Num(Interface(hook, st.arg)), 4)
              && SameExcept(o.st.frame, st.frame, HEAD_FIELDS)
  {
    hide Exec, Run, Bump, MetaCode, FamilyCode, DynptrCode, L2Code, SliceOk, Le16, PacketSize, Interface;
    var meta, dyn := MetaCode(hook), DynptrCode(err, accept);
    MetaClosed(hook);
    DynptrClosed(err, accept);
    MetaMeaning(env, link, hook, st);
    var s1 := Run(env, link, meta, 0, st).st;
    if IsCgroup(hook) {
      RunConcat(env, link, meta, FamilyCode() + dyn, 0, st);
      RunConcat(env, link, FamilyCode(), dyn, 0, s1);
      FamilyMeaning(env, link, s1);
      var s2 := Run(env, link, FamilyCode(), 0, s1).st;
      DynptrMeaning(env, link, err, accept, s2);
      if env.dynptrOk {
        HighRegs(Run(env, link, dyn, 0, s2).st, s2);
      }
    } else {
      RunConcat(env, link, meta, dyn + L2Code(err, accept), 0, st);
      RunConcat(env, link, dyn, L2Code(err, accept), 0, s1);
      DynptrMeaning(env, link, err, accept, s1);
      if env.dynptrOk {
        var s2 := Run(env, link, dyn, 0, s1).st;
        HighRegs(s2, s1);
        L2Meaning(env, link, err, accept, s2);
      }
    }
  }

  predicate LogReady(link: Link, log: bool, st: State) {
    log ==> LOG_MAP in st.frame && st.frame[LOG_MAP] == Slot(MapRef(link.log), 8)
  }

  /** Ready for the rules, or out through the error exit, as the direct parser says. */
  predicate PrologueOutcome(env: Env, link: Link, hook: Hook, flags: Flags, err: nat, accept: nat, st: State, o: Outcome)
    requires ArgOk(hook, st.arg)
  {
    match Parse(hook, flags.storeNexthdr, env, st.arg)
    case Rejected =>
      && o.Done? && o.st.regs[0] == Num(accept) && o.st.arg == st.arg && o.st.logs == st.logs
      && o.st.counters == Bump(st.counters, err, PacketSize(hook, st.arg))
    case Parsed(v) =>
      && o.At? && o.k == 0 && Idle(o.st, st)
      && Ready(env, flags.storeNexthdr, v, o.st) && LogReady(link, flags.log, o.st)
  }

  lemma EntryClosed(flags: Flags)
    ensures Closed(EntryCode(flags))
  {
  }

  lemma HeadClosed(hook: Hook, err: nat, accept: nat)
    ensures Closed(HeadCode(hook, err, accept))
  {
    var c := HeadCode(hook, err, accept);
    if IsCgroup(hook) {
      assert c[|c| - 1] == ExitInsn();
    } else {
      assert c[|c| - 1] == StMem(W, 10, L3_OFFSET, ETH_HLEN);
    }
  }

  lemma L3Closed(err: nat, accept: nat, record: bool)
    ensures Closed(L3Code(err, accept, record))
  {
    var c := L3Code(err, accept, record);
    assert c[|c| - 1] == StxMem(W, 10, 2, L4_OFFSET) by {
      var v6 := V6Code(record);
      V6Layout(record);
      assert c[|c| - 1] == v6[|v6| - 1];
    }
  }

  /** The two IP layers together, from a state where the network protocol is known. */
  lemma LayersMeaning(env: Env, link: Link, err: nat, accept: nat, record: bool, l3: nat, l3off: nat,
                      ifindex: nat, size: nat, st: State)
    requires Linked(record, l3, l3off, st) && err < TWO31 && accept < TWO31 && ifindex < TWO32 && size < TWO64
    requires ARG in st.frame && st.frame[ARG] == Slot(Arg, 8) && L4_HDR !in st.frame
    requires st.frame[PKT_SIZE] == Slot(Num(size), 8)
    requires IFINDEX in st.frame && st.frame[IFINDEX] == Slot(Num(ifindex), 4)
    ensures var o := Run(env, link, L3Code(err, accept, record) + L4Code(err, accept), 0, st);
            match ParseFrom(env, record, l3, l3off, ifindex, size)
            case Rejected => ErrorExit(o, st, err, accept)
            case Parsed(v) =>
              && o.At? && o.k == 0 && Idle(o.st, st) && Ready(env, record, v, o.st)
              && forall log :: LogReady(link, log, st) ==> LogReady(link, log, o.st)
  {
    hide Exec, Run, Bump, L3Code, L4Code, FindL4, SliceOk;
    L3Closed(err, accept, record);
    RunConcat(env, link, L3Code(err, accept, record), L4Code(err, accept), 0, st);
    L3Meaning(env, link, err, accept, record, l3, l3off, st);
    if !KnownL3(l3) {
      L4Meaning(env, link, err, accept, 0, 0, WithReg(st, 7, Num(0)));
    } else if FindL4(env, record, l3, l3off).Found? {
      var found := FindL4(env, record, l3, l3off);
      var s := Run(env, link, L3Code(err, accept, record), 0, st).st;
      L4Meaning(env, link, err, accept, found.proto, found.off, s);
      FindL4Facts(env, record, l3, l3off);
      if KnownL4(found.proto) && SliceOk(env, found.off, L4Len(found.proto)) {
        SliceInData(env, found.off, L4Len(found.proto));
      }
    }
  }

  lemma FindL4Facts(env: Env, record: bool, l3: nat, l3off: nat)
    requires KnownL3(l3) && FindL4(env, record, l3, l3off).Found?
    ensures InData(env, l3off, L3Len(l3)) && FindL4(env, record, l3, l3off).eh < TWO8
  {
  }

  lemma EntryFrameFacts(link: Link, flags: Flags)
    ensures var f := EntryFrame(link, flags);
            && ARG in f && f[ARG] == Slot(Arg, 8) && L4_HDR !in f
            && (flags.storeNexthdr ==> IPV6_EH in f && f[IPV6_EH] == Slot(Num(0), 8))
            && (flags.log ==> LOG_MAP in f && f[LOG_MAP] == Slot(MapRef(link.log), 8))
  {
  }

  /** What the entry code stored is still there behind the head. */
  lemma EntryKept(link: Link, flags: Flags, s1: State, s2: State)
    requires s1.frame == EntryFrame(link, flags) && SameExcept(s2.frame, s1.frame, HEAD_FIELDS)
    ensures ARG in s2.frame && s2.frame[ARG] == Slot(Arg, 8) && L4_HDR !in s2.frame
    ensures flags.storeNexthdr ==> IPV6_EH in s2.frame && s2.frame[IPV6_EH] == Slot(Num(0), 8)
    ensures LogReady(link, flags.log, s2)
  {
    hide EntryFrame;
    EntryFrameFacts(link, flags);
  }

  /** Prologue correctness, for every packet, argument and kernel behaviour. */
  lemma PrologueMeaning(env: Env, link: Link, hook: Hook, flags: Flags, err: nat, accept: nat, st: State)
    requires AtStart(st) && ArgOk(hook, st.arg) && err < TWO31 && accept < TWO31
    ensures PrologueOutcome(env, link, hook, flags, err, accept, st,
                            Run(env, link, PrologueCode(hook, flags, err, accept), 0, st))
  {
    hide Exec, Run, Bump, EntryCode, HeadCode, L3Code, L4Code, EntryFrame, ParseFrom, Ready, SliceOk, Le16, PacketSize;
    hide SameExcept, LogReady, Interface, FamilyProto;
    var record := flags.storeNexthdr;
    var layers := L3Code(err, accept, record) + L4Code(err, accept);
    EntryClosed(flags);
    HeadClosed(hook, err, accept);
    RunConcat(env, link, EntryCode(flags), HeadCode(hook, err, accept) + layers, 0, st);
    EntryMeaning(env, link, flags, st);
    var s1 := Run(env, link, EntryCode(flags), 0, st).st;
    RunConcat(env, link, HeadCode(hook, err, accept), layers, 0, s1);
    HeadMeaning(env, link, hook, err, accept, s1);
    var found := LinkProto(hook, env, st.arg);
    if found.Found? {
      var s2 := Run(env, link, HeadCode(hook, err, accept), 0, s1).st;
      LinkBound(hook, env, st.arg);
      EntryKept(link, flags, s1, s2);
      LayersMeaning(env, link, err, accept, record, found.proto, found.off,
                    Interface(hook, st.arg), PacketSize(hook, st.arg), s2);
    }
  }

  lemma LinkBound(hook: Hook, env: Env, arg: map<int, nat>)
    requires ArgOk(hook, arg) && LinkProto(hook, env, arg).Found?
    ensures LinkProto(hook, env, arg).proto < TWO16 && LinkProto(hook, env, arg).off <= ETH_HLEN
    ensures Interface(hook, arg) < TWO32
  {
  }
}
