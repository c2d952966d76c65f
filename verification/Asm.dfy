/**
 The instruction macros of the generator, the recurring pieces of code built from them,
 and what those pieces do.
 */
module Asm {
  import opened Bits
  import opened Packet
  import opened Bpf

  function Plain(op: Op, dst: Reg, src: Reg, off: int, imm: int): Item {
    Item(Insn(op, dst, src, off, imm), Fixed)
  }

  function Mov64Imm(dst: Reg, imm: int): Item { Plain(Alu64Imm(Mov), dst, 0, 0, imm) }
  function Mov64Reg(dst: Reg, src: Reg): Item { Plain(Alu64Reg(Mov), dst, src, 0, 0) }
  function Mov32Imm(dst: Reg, imm: int): Item { Plain(Alu32Imm(Mov), dst, 0, 0, imm) }
  function AluImm(alu: Alu, dst: Reg, imm: int): Item { Plain(Alu64Imm(alu), dst, 0, 0, imm) }
  function AluReg(alu: Alu, dst: Reg, src: Reg): Item { Plain(Alu64Reg(alu), dst, src, 0, 0) }
  function And32Reg(dst: Reg, src: Reg): Item { Plain(Alu32Reg(And), dst, src, 0, 0) }
  function LdxMem(size: Size, dst: Reg, src: Reg, off: int): Item { Plain(Ldx(size), dst, src, off, 0) }
  function StxMem(size: Size, dst: Reg, src: Reg, off: int): Item { Plain(Stx(size), dst, src, off, 0) }
  function StMem(size: Size, dst: Reg, off: int, imm: int): Item { Plain(St(size), dst, 0, off, imm) }
  function JumpImm(cond: Cond, dst: Reg, imm: int, off: int): Item { Plain(JmpImm(cond), dst, 0, off, imm) }
  function Jump(off: int): Item { Plain(Ja, 0, 0, off, 0) }
  function KernelCall(kernel: Kernel): Item { Plain(Kfunc(kernel), 0, 0, 0, 0) }
  function ExitInsn(): Item { Plain(Exit, 0, 0, 0, 0) }
  function Second(imm: int): Item { Plain(SecondSlot, 0, 0, 0, imm) }

  /** A jump whose offset is fixed up when the rule is complete. */
  function NextRuleImm(cond: Cond, dst: Reg, imm: int): Item { Item(Insn(JmpImm(cond), dst, 0, 0, imm), NextRule) }
  function NextRuleReg(cond: Cond, dst: Reg, src: Reg): Item { Item(Insn(JmpReg(cond), dst, src, 0, 0), NextRule) }
  function CallStubItem(stub: Stub): Item { Item(Insn(CallRel, 0, 0, 0, 0), StubCall(stub)) }
  function LoadMap(dst: Reg, kind: MapKind): Item { Item(Insn(LdMapFd, dst, 0, 0, 0), MapFd(kind)) }

  /** An unsigned 32-bit value as the signed immediate field holds it. */
  function S32(n: nat): int {
    if n < TWO31 then n else n - TWO32
  }

  /** Count the packet under the given key of the counters map. */
  function CountCode(key: nat): seq<Item> {
    [Mov64Reg(1, 10), AluImm(Add, 1, ARG), LoadMap(2, CountersMap), Second(0),
     Mov32Imm(3, key), CallStubItem(UpdateCounters)]
  }

  function ExitCode(verdict: int): seq<Item> {
    [Mov64Imm(0, verdict), ExitInsn()]
  }

  /** Body executed unless the jump is taken: the code of a scope-bound jump context. */
  function SkipIf(jump: Item, body: seq<Item>): seq<Item> {
    [jump.(insn := jump.insn.(off := |body|))] + body
  }

  /** What a rule or a packet can change outside scratch registers. */
  predicate SameEffects(a: State, b: State) {
    a.frame == b.frame && a.arg == b.arg && a.counters == b.counters && a.logs == b.logs
  }

  predicate KeepsHigh(a: State, b: State) {
    a.regs[6..] == b.regs[6..]
  }

  // One lemma per kind of instruction. Each says where `Run` continues and in which state.

  lemma RunEnd(env: Env, link: Link, code: seq<Item>, pc: nat, st: State)
    requires pc >= |code|
    ensures Run(env, link, code, pc, st) == At(pc - |code|, st)
  {
  }

  lemma StepImm(env: Env, link: Link, code: seq<Item>, pc: nat, st: State, v: Val) returns (st': State)
    requires pc < |code| && code[pc].insn.op.Alu64Imm? && code[pc].insn.dst != 10
    requires v == Alu64(code[pc].insn.op.alu, st.regs[code[pc].insn.dst], Imm64(code[pc].insn.imm)) && !v.Junk?
    ensures st' == WithReg(st, code[pc].insn.dst, v)
    ensures Run(env, link, code, pc, st) == Run(env, link, code, pc + 1, st')
  {
    hide Alu64, Imm64;
    st' := WithReg(st, code[pc].insn.dst, v);
  }

  lemma StepReg(env: Env, link: Link, code: seq<Item>, pc: nat, st: State, v: Val) returns (st': State)
    requires pc < |code| && code[pc].insn.op.Alu64Reg? && code[pc].insn.dst != 10
    requires v == Alu64(code[pc].insn.op.alu, st.regs[code[pc].insn.dst], st.regs[code[pc].insn.src]) && !v.Junk?
    ensures st' == WithReg(st, code[pc].insn.dst, v)
    ensures Run(env, link, code, pc, st) == Run(env, link, code, pc + 1, st')
  {
    hide Alu64;
    st' := WithReg(st, code[pc].insn.dst, v);
  }

  lemma Step32(env: Env, link: Link, code: seq<Item>, pc: nat, st: State, v: Val) returns (st': State)
    requires pc < |code| && (code[pc].insn.op.Alu32Imm? || code[pc].insn.op.Alu32Reg?) && code[pc].insn.dst != 10
    requires var i := code[pc].insn;
             v == Alu32(i.op.alu, st.regs[i.dst], if i.op.Alu32Imm? then Imm64(i.imm) else st.regs[i.src]) && !v.Junk?
    ensures st' == WithReg(st, code[pc].insn.dst, v)
    ensures Run(env, link, code, pc, st) == Run(env, link, code, pc + 1, st')
  {
    hide Alu32, Imm64;
    st' := WithReg(st, code[pc].insn.dst, v);
  }

  lemma StepSwap(env: Env, link: Link, code: seq<Item>, pc: nat, st: State) returns (st': State)
    requires pc < |code| && code[pc].insn.op.Bswap? && code[pc].insn.dst != 10 && st.regs[code[pc].insn.dst].Num?
    ensures st' == WithReg(st, code[pc].insn.dst, Num(Swap16(st.regs[code[pc].insn.dst].n)))
    ensures Run(env, link, code, pc, st) == Run(env, link, code, pc + 1, st')
  {
    hide Swap16;
    st' := WithReg(st, code[pc].insn.dst, Num(Swap16(st.regs[code[pc].insn.dst].n)));
  }

  lemma StepLoad(env: Env, link: Link, code: seq<Item>, pc: nat, st: State, v: Val) returns (st': State)
    requires pc < |code| && code[pc].insn.op.Ldx? && code[pc].insn.dst != 10
    requires v == Load(env, code[pc].insn.op.size, st.regs[code[pc].insn.src], code[pc].insn.off, st) && !v.Junk?
    ensures st' == WithReg(st, code[pc].insn.dst, v)
    ensures Run(env, link, code, pc, st) == Run(env, link, code, pc + 1, st')
  {
    hide Load;
    st' := WithReg(st, code[pc].insn.dst, v);
  }

  /** Load a pointer from a field of the frame. */
  lemma StepLoadPtr(env: Env, link: Link, code: seq<Item>, pc: nat, st: State, v: Val) returns (st': State)
    requires pc < |code| && code[pc].insn.op == Ldx(DW) && code[pc].insn.dst != 10
    requires st.regs[code[pc].insn.src] == Frame(0) && code[pc].insn.off in st.frame
    requires st.frame[code[pc].insn.off] == Slot(v, 8) && !v.Num? && !v.Junk?
    ensures st' == WithReg(st, code[pc].insn.dst, v)
    ensures Run(env, link, code, pc, st) == Run(env, link, code, pc + 1, st')
  {
    hide Exec, Run;
    st' := StepLoad(env, link, code, pc, st, v);
  }

  /** Load a byte of a header. */
  lemma StepLoadByte(env: Env, link: Link, code: seq<Item>, pc: nat, st: State, at: nat, len: nat) returns (st': State)
    requires pc < |code| && code[pc].insn.op == Ldx(B) && code[pc].insn.dst != 10
    requires st.regs[code[pc].insn.src] == Pkt(at, len) && 0 <= code[pc].insn.off < len && InData(env, at, len)
    ensures st' == WithReg(st, code[pc].insn.dst, Num(env.data[at + code[pc].insn.off]))
    ensures Run(env, link, code, pc, st) == Run(env, link, code, pc + 1, st')
  {
    hide Exec, Run;
    st' := StepLoad(env, link, code, pc, st, Num(env.data[at + code[pc].insn.off]));
  }

  /** Load a 32-bit word of a header. */
  lemma StepLoadWord(env: Env, link: Link, code: seq<Item>, pc: nat, st: State, at: nat, len: nat) returns (st': State)
    requires pc < |code| && code[pc].insn.op == Ldx(W) && code[pc].insn.dst != 10
    requires st.regs[code[pc].insn.src] == Pkt(at, len) && 0 <= code[pc].insn.off <= len - 4 && InData(env, at, len)
    ensures st' == WithReg(st, code[pc].insn.dst, Num(Le32(env, at + code[pc].insn.off)))
    ensures Run(env, link, code, pc, st) == Run(env, link, code, pc + 1, st')
  {
    hide Exec, Run, Le32;
    st' := StepLoad(env, link, code, pc, st, Num(Le32(env, at + code[pc].insn.off)));
  }

  /** Store a number into a field of the frame. */
  lemma StepStore(env: Env, link: Link, code: seq<Item>, pc: nat, st: State, v: Val) returns (st': State)
    requires pc < |code| && (code[pc].insn.op.Stx? || code[pc].insn.op.St?)
    requires st.regs[code[pc].insn.dst] == Frame(0) && v.Num?
    requires v == if code[pc].insn.op.Stx? then st.regs[code[pc].insn.src] else Imm64(code[pc].insn.imm)
    ensures var size := code[pc].insn.op.size;
            st' == st.(frame := st.frame[code[pc].insn.off := Slot(Num(v.n % size.Modulus()), size.Bytes())])
    ensures Run(env, link, code, pc, st) == Run(env, link, code, pc + 1, st')
  {
    hide Imm64;
    var size := code[pc].insn.op.size;
    st' := st.(frame := st.frame[code[pc].insn.off := Slot(Num(v.n % size.Modulus()), size.Bytes())]);
  }

  /** Store a pointer into a field of the frame. */
  lemma StepStorePtr(env: Env, link: Link, code: seq<Item>, pc: nat, st: State) returns (st': State)
    requires pc < |code| && code[pc].insn.op == Stx(DW) && st.regs[code[pc].insn.dst] == Frame(0)
    requires var v := st.regs[code[pc].insn.src]; !v.Num? && !v.Junk? && !v.Unset?
    ensures st' == st.(frame := st.frame[code[pc].insn.off := Slot(st.regs[code[pc].insn.src], 8)])
    ensures Run(env, link, code, pc, st) == Run(env, link, code, pc + 1, st')
  {
    st' := st.(frame := st.frame[code[pc].insn.off := Slot(st.regs[code[pc].insn.src], 8)]);
  }

  lemma StepMap(env: Env, link: Link, code: seq<Item>, pc: nat, st: State, kind: MapKind) returns (st': State)
    requires pc + 1 < |code| && code[pc] == LoadMap(code[pc].insn.dst, kind) && code[pc + 1] == Second(0)
    requires code[pc].insn.dst != 10
    ensures st' == WithReg(st, code[pc].insn.dst, MapRef(link.Fd(kind)))
    ensures Run(env, link, code, pc, st) == Run(env, link, code, pc + 2, st')
  {
    st' := WithReg(st, code[pc].insn.dst, MapRef(link.Fd(kind)));
  }

  lemma StepWide(env: Env, link: Link, code: seq<Item>, pc: nat, st: State) returns (st': State)
    requires pc + 1 < |code| && code[pc].insn.op.LdImm64? && code[pc + 1].insn.op.SecondSlot?
    requires code[pc].insn.dst != 10
    ensures st' == WithReg(st, code[pc].insn.dst,
                           Num(code[pc].insn.imm % TWO32 + TWO32 * (code[pc + 1].insn.imm % TWO32)))
    ensures Run(env, link, code, pc, st) == Run(env, link, code, pc + 2, st')
  {
    var hi := code[pc + 1].insn.imm % TWO32;
    assert hi % TWO32 == hi;
    st' := WithReg(st, code[pc].insn.dst, Num(code[pc].insn.imm % TWO32 + TWO32 * hi));
  }

  /** The comparison a jump makes. */
  function Tested(item: Item, st: State): Test
    requires IsJump(item.insn.op)
  {
    match item.insn.op
    case JmpImm(cond) => Compare(cond, st.regs[item.insn.dst], Imm64(item.insn.imm))
    case JmpReg(cond) => Compare(cond, st.regs[item.insn.dst], st.regs[item.insn.src])
    case _ => Test(true, true)
  }

  lemma StepJump(env: Env, link: Link, code: seq<Item>, pc: nat, st: State, taken: bool)
    requires pc < |code| && IsJump(code[pc].insn.op) && code[pc].insn.off >= 0
    requires Tested(code[pc], st) == Test(true, taken)
    ensures Run(env, link, code, pc, st) ==
            if !taken then Run(env, link, code, pc + 1, st)
            else if code[pc].reloc.NextRule? then Next(st)
            else Run(env, link, code, pc + 1 + code[pc].insn.off, st)
  {
    hide Compare, Imm64;
  }

  predicate Cmp(cond: Cond, a: nat, b: nat) {
    match cond
    case Jeq => a == b
    case Jne => a != b
    case Jge => a >= b
    case Jgt => a > b
    case Jlt => a < b
  }

  /** Compare a number in a register against a small immediate. */
  lemma StepTest(env: Env, link: Link, code: seq<Item>, pc: nat, st: State, n: nat)
    requires pc < |code| && code[pc].insn.op.JmpImm? && code[pc].insn.off >= 0
    requires st.regs[code[pc].insn.dst] == Num(n) && 0 <= code[pc].insn.imm < TWO31
    ensures Run(env, link, code, pc, st) ==
            if !Cmp(code[pc].insn.op.cond, n, code[pc].insn.imm) then Run(env, link, code, pc + 1, st)
            else if code[pc].reloc.NextRule? then Next(st)
            else Run(env, link, code, pc + 1 + code[pc].insn.off, st)
  {
    hide Exec, Run;
    ModNoop(code[pc].insn.imm, TWO64);
    StepJump(env, link, code, pc, st, Cmp(code[pc].insn.op.cond, n, code[pc].insn.imm));
  }

  lemma StepKernel(env: Env, link: Link, code: seq<Item>, pc: nat, st: State) returns (st': State)
    requires pc < |code| && code[pc].insn.op.Kfunc?
    requires CallKernel(env, code[pc].insn.op.kernel, st).Go?
    ensures st' == CallKernel(env, code[pc].insn.op.kernel, st).st
    ensures Run(env, link, code, pc, st) == Run(env, link, code, pc + 1, st')
  {
    st' := CallKernel(env, code[pc].insn.op.kernel, st).st;
  }

  lemma StepCount(env: Env, link: Link, code: seq<Item>, pc: nat, st: State) returns (st': State)
    requires pc < |code| && code[pc] == CallStubItem(UpdateCounters) && CallUpdateCounters(link, st).Go?
    ensures st' == CallUpdateCounters(link, st).st
    ensures Run(env, link, code, pc, st) == Run(env, link, code, pc + 1, st')
  {
    hide CallParseIpv6, CallLog;
    st' := CallUpdateCounters(link, st).st;
  }

  lemma StepLog(env: Env, link: Link, code: seq<Item>, pc: nat, st: State) returns (st': State)
    requires pc < |code| && code[pc] == CallStubItem(Log) && CallLog(env, link, st).Go?
    ensures st' == CallLog(env, link, st).st
    ensures Run(env, link, code, pc, st) == Run(env, link, code, pc + 1, st')
  {
    hide CallParseIpv6, CallUpdateCounters;
    st' := CallLog(env, link, st).st;
  }

  lemma StepWalk(env: Env, link: Link, code: seq<Item>, pc: nat, st: State, record: bool) returns (st': State)
    requires pc < |code| && code[pc] == CallStubItem(if record then ParseIpv6Nh else ParseIpv6Eh)
    requires CallParseIpv6(env, record, st).Go?
    ensures st' == CallParseIpv6(env, record, st).st
    ensures Run(env, link, code, pc, st) == Run(env, link, code, pc + 1, st')
  {
    hide CallLog, CallUpdateCounters;
    st' := CallParseIpv6(env, record, st).st;
  }

  predicate CanCount(st: State) {
    st.regs[10] == Frame(0) && HasNum(st, PKT_SIZE)
  }

  /** Counting changes one counter and scratch registers, nothing else. */
  lemma CountMeaning(env: Env, link: Link, key: nat, st: State)
    requires CanCount(st) && key < TWO31
    ensures var o := Run(env, link, CountCode(key), 0, st);
            && o.At? && o.k == 0 && KeepsHigh(o.st, st) && o.st.frame == st.frame && o.st.arg == st.arg
            && o.st.logs == st.logs && o.st.counters == Bump(st.counters, key, FrameNum(st, PKT_SIZE))
  {
    hide Exec, Run, CallStub, Bump;
    var c := CountCode(key);
    var s1 := StepReg(env, link, c, 0, st, Frame(0));
    var s2 := StepImm(env, link, c, 1, s1, Frame(ARG));
    var s3 := StepMap(env, link, c, 2, s2, CountersMap);
    var s4 := Step32(env, link, c, 4, s3, Num(key));
    var s5 := StepCount(env, link, c, 5, s4);
    RunEnd(env, link, c, 6, s5);
  }

  lemma ExitMeaning(env: Env, link: Link, verdict: nat, st: State)
    requires verdict < TWO31
    ensures Run(env, link, ExitCode(verdict), 0, st) == Done(WithReg(st, 0, Num(verdict)))
  {
    hide Load, Store, CallKernel, CallStub;
    var s1 := StepImm(env, link, ExitCode(verdict), 0, st, Num(verdict));
  }

  /** A scope-bound jump skips its body or runs it. */
  lemma SkipIfMeaning(env: Env, link: Link, jump: Item, body: seq<Item>, st: State, taken: bool)
    requires IsJump(jump.insn.op) && jump.reloc.Fixed? && Tested(jump, st) == Test(true, taken)
    ensures Run(env, link, SkipIf(jump, body), 0, st) == if taken then At(0, st) else Run(env, link, body, 0, st)
  {
    hide Exec, Run, Tested;
    var c := SkipIf(jump, body);
    assert Tested(c[0], st) == Tested(jump, st) by { TestedIgnoresOffset(jump, |body|, st); }
    StepJump(env, link, c, 0, st, taken);
    if taken {
      RunEnd(env, link, c, 1 + |body|, st);
    } else {
      RunShift(env, link, [c[0]], body, 1, st);
    }
  }

  lemma TestedIgnoresOffset(jump: Item, off: int, st: State)
    requires IsJump(jump.insn.op)
    ensures Tested(jump.(insn := jump.insn.(off := off)), st) == Tested(jump, st)
  {
  }

  /** Leave the program after counting the packet under `key`. */
  function CountAndExit(key: nat, verdict: int): seq<Item> {
    CountCode(key) + ExitCode(verdict)
  }

  lemma CountAndExitMeaning(env: Env, link: Link, key: nat, verdict: nat, st: State)
    requires CanCount(st) && key < TWO31 && verdict < TWO31
    ensures var o := Run(env, link, CountAndExit(key, verdict), 0, st);
            && o.Done? && o.st.regs[0] == Num(verdict) && o.st.arg == st.arg && o.st.logs == st.logs
            && o.st.counters == Bump(st.counters, key, FrameNum(st, PKT_SIZE))
  {
    hide Exec, Run, Bump;
    CountMeaning(env, link, key, st);
    RunConcat(env, link, CountCode(key), ExitCode(verdict), 0, st);
    ExitMeaning(env, link, verdict, Run(env, link, CountCode(key), 0, st).st);
  }
}
