/**
 The BPF instructions the generator emits and what they do (RFC 9669: sections 4.1 and 4.2
 for arithmetic, 4.3 for jumps, 5.1 for loads and stores, 5.4 for two-slot immediates).

 Two interpreters share one instruction semantics. `Run` executes a relocatable piece of
 code, where jumps only go forward and operands that are fixed up later are symbolic; it
 tells where control leaves the piece. `RunImage` executes a finished image from its first
 instruction, with a bound on the number of steps.

 Kernel functions and ELF stubs are atomic steps that clobber r0-r5 and keep r6-r10. The
 stack frame is a map from field offset to stored value. A field that was never stored
 loads as Unset, which a register may hold; following it, comparing it or computing with
 it traps, and so does any other unusable operand.
 */
module Bpf {
  import opened Bits
  import opened Packet
  import Ipv6Walk

  // Offsets from r10 of the fields of the 240-byte runtime context.
  const ARG := -240
  const DYNPTR := -232
  const LOG_MAP := -216
  const PKT_SIZE := -208
  const IPV6_EH := -200
  const L2_SIZE := -199
  const L3_SIZE := -198
  const L4_SIZE := -197
  const L3_OFFSET := -192
  const L4_OFFSET := -184
  const IFINDEX := -176
  const L2_HDR := -168
  const L3_HDR := -160
  const L4_HDR := -152
  const L2_BUF := -144
  const L4_BUF := -88
  const SCRATCH := -64

  type Reg = r: int | 0 <= r <= 10

  datatype Size = B | H | W | DW {
    function Bytes(): (n: nat)
      ensures 1 <= n <= 8
    {
      match this case B => 1 case H => 2 case W => 4 case DW => 8
    }

    function Modulus(): (n: nat)
      ensures n > 0
    {
      match this case B => TWO8 case H => TWO16 case W => TWO32 case DW => TWO64
    }
  }

  datatype Alu = Mov | Add | Sub | And | Lsh
  datatype Cond = Jeq | Jne | Jge | Jgt | Jlt
  datatype Stub = ParseIpv6Eh | ParseIpv6Nh | UpdateCounters | Log
  datatype Kernel = DynptrFrom | DynptrSlice
  datatype MapKind = CountersMap | PrinterMap | LogMap

  datatype Op =
    | Alu64Imm(alu: Alu)
    | Alu64Reg(alu: Alu)
    | Alu32Imm(alu: Alu)
    | Alu32Reg(alu: Alu)
    | Bswap
    | Ldx(size: Size)
    | Stx(size: Size)
    | St(size: Size)
    | LdImm64
    | LdMapFd
    | LdMapValue
    | SecondSlot
    | JmpImm(cond: Cond)
    | JmpReg(cond: Cond)
    | Ja
    | Kfunc(kernel: Kernel)
    | CallRel
    | Exit

  datatype Insn = Insn(op: Op, dst: Reg, src: Reg, off: int, imm: int)

  // What a recorded fixup will later write into an instruction.
  datatype Reloc = Fixed | NextRule | MapFd(kind: MapKind) | StubCall(stub: Stub)

  datatype Item = Item(insn: Insn, reloc: Reloc)

  predicate TwoSlot(op: Op) {
    op.LdImm64? || op.LdMapFd? || op.LdMapValue?
  }

  predicate IsJump(op: Op) {
    op.JmpImm? || op.JmpReg? || op.Ja?
  }

  datatype Val =
    | Num(n: nat)
    | Frame(off: int)
    | Arg
    | Dynptr
    | Pkt(at: nat, len: nat)
    | MapRef(fd: int)
    | Unset
    | Junk

  datatype Slot = Slot(val: Val, width: nat)

  datatype Counter = Counter(packets: nat, bytes: nat)

  datatype LogEntry = LogEntry(rule: nat, headers: nat, l3: nat, l4: nat, size: nat)

  type Regs = s: seq<Val> | |s| == 11 witness seq(11, _ => Junk)

  datatype State = State(
    regs: Regs,
    frame: map<int, Slot>,
    arg: map<int, nat>,
    counters: seq<Counter>,
    logs: seq<LogEntry>)

  /** File descriptors of the maps the program uses. */
  datatype Link = Link(counters: int, printer: int, log: int) {
    function Fd(kind: MapKind): int {
      match kind case CountersMap => counters case PrinterMap => printer case LogMap => log
    }
  }

  datatype Action = Go(skip: nat, st: State) | Escape(st: State) | Halt(st: State) | Trap

  /** A 32-bit immediate, sign-extended to 64 bits. */
  function Imm64(imm: int): Val {
    Num(imm % TWO64)
  }

  function Signed64(n: nat): int {
    if n < TWO31 * TWO32 then n else n - TWO64
  }

  /** 64-bit arithmetic; Junk marks an operand the operation cannot be applied to. */
  function Alu64(alu: Alu, a: Val, b: Val): Val {
    match alu
    case Mov => b
    case Add =>
      if b.Num? && a.Num? then Num((a.n + b.n) % TWO64)
      else if b.Num? && a.Frame? then Frame(a.off + Signed64(b.n))
      else Junk
    case Sub => if a.Num? && b.Num? then Num((a.n - b.n) % TWO64) else Junk
    case And => if a.Num? && b.Num? then Num(BitAnd(a.n, b.n)) else Junk
    case Lsh => if a.Num? && b.Num? then Num(a.n * Pow2(b.n % 64) % TWO64) else Junk
  }

  /** 32-bit arithmetic; the upper half of the result is zero. */
  function Alu32(alu: Alu, a: Val, b: Val): Val {
    match alu
    case Mov => if b.Num? then Num(b.n % TWO32) else Junk
    case And => if a.Num? && b.Num? then Num(BitAnd(a.n % TWO32, b.n % TWO32)) else Junk
    case _ => Junk
  }

  function Swap16(n: nat): nat {
    n % TWO8 * TWO8 + n / TWO8 % TWO8
  }

  /** Whether a comparison is legal, and its outcome: numbers unsigned, pointers only against null. */
  datatype Test = Test(legal: bool, taken: bool)

  function Compare(cond: Cond, a: Val, b: Val): Test {
    if a.Num? && b.Num? then
      Test(true, match cond
                 case Jeq => a.n == b.n
                 case Jne => a.n != b.n
                 case Jge => a.n >= b.n
                 case Jgt => a.n > b.n
                 case Jlt => a.n < b.n)
    else if a.Pkt? && b == Num(0) && (cond.Jeq? || cond.Jne?) then Test(true, cond.Jne?)
    else Test(false, false)
  }

  function WithReg(st: State, r: Reg, v: Val): State {
    st.(regs := st.regs[r := v])
  }

  function SetReg(st: State, r: Reg, v: Val): Action {
    if v.Junk? || r == 10 then Trap else Go(0, WithReg(st, r, v))
  }

  /** Little-endian load of `size` bytes of the packet. */
  function LoadPacket(env: Env, size: Size, at: nat): Val
    requires InData(env, at, size.Bytes())
  {
    match size
    case B => Num(env.data[at])
    case H => Num(Le16(env, at))
    case W => Num(Le32(env, at))
    case DW => Num(Le32(env, at) + TWO32 * Le32(env, at + 4))
  }

  /** A load from a frame field: part of it, all of it, or all of it and the bytes that follow. */
  function LoadSlot(env: Env, size: Size, slot: Slot): Val {
    if !slot.val.Num? then (if size.DW? && slot.width == 8 then slot.val else Junk)
    else if size.Bytes() <= slot.width then Num(slot.val.n % size.Modulus())
    else Num((slot.val.n + Pow2(8 * slot.width) * env.noise) % size.Modulus())
  }

  function Load(env: Env, size: Size, base: Val, off: int, st: State): Val {
    match base
    case Frame(f) => if f + off in st.frame then LoadSlot(env, size, st.frame[f + off]) else Unset
    case Arg => if size.W? && off in st.arg then Num(st.arg[off]) else Junk
    case Pkt(at, len) =>
      if 0 <= off && off + size.Bytes() <= len && InData(env, at + off, size.Bytes())
      then LoadPacket(env, size, at + off) else Junk
    case _ => Junk
  }

  function Store(size: Size, base: Val, off: int, v: Val, st: State): Action {
    if v.Num? then
      if base.Frame? then
        Go(0, st.(frame := st.frame[base.off + off := Slot(Num(v.n % size.Modulus()), size.Bytes())]))
      else if base.Arg? && size.W? then Go(0, st.(arg := st.arg[off := v.n % TWO32]))
      else Trap
    else if v.Junk? || v.Unset? || !base.Frame? || !size.DW? then Trap
    else Go(0, st.(frame := st.frame[base.off + off := Slot(v, 8)]))
  }

  /** Calls return in r0 and leave r1-r5 unusable. */
  function Return(st: State, r0: Val): Action {
    Go(0, st.(regs := [r0, Junk, Junk, Junk, Junk, Junk] + st.regs[6..]))
  }

  function CallKernel(env: Env, kernel: Kernel, st: State): Action {
    match kernel
    case DynptrFrom =>
      if st.regs[1] == Arg && st.regs[2] == Num(0) && st.regs[3] == Frame(DYNPTR) then
        if env.dynptrOk
        then Return(st.(frame := st.frame[DYNPTR := Slot(Dynptr, 16)]), Num(0))
        else Return(st, Num(TWO64 - 22))
      else Trap
    case DynptrSlice =>
      if && st.regs[1] == Frame(DYNPTR) && DYNPTR in st.frame && st.frame[DYNPTR].val == Dynptr
         && st.regs[2].Num? && st.regs[3].Frame? && st.regs[4].Num? then
        Return(st, if SliceOk(env, st.regs[2].n, st.regs[4].n) then Pkt(st.regs[2].n, st.regs[4].n) else Num(0))
      else Trap
  }

  function FrameNum(st: State, field: int): nat
    requires field in st.frame && st.frame[field].val.Num?
  {
    st.frame[field].val.n
  }

  predicate HasNum(st: State, field: int) {
    field in st.frame && st.frame[field].val.Num?
  }

  /** update_counters: one more packet, pkt_size more bytes; an unknown key changes nothing. */
  function Bump(counters: seq<Counter>, key: nat, size: nat): (r: seq<Counter>)
    ensures |r| == |counters|
  {
    if key < |counters|
    then counters[key := Counter((counters[key].packets + 1) % TWO64, (counters[key].bytes + size) % TWO64)]
    else counters
  }

  function CallUpdateCounters(link: Link, st: State): Action {
    if && st.regs[1] == Frame(ARG) && st.regs[2] == MapRef(link.counters) && st.regs[3].Num?
       && HasNum(st, PKT_SIZE) then
      var key := st.regs[3].n % TWO32;
      Return(st.(counters := Bump(st.counters, key, FrameNum(st, PKT_SIZE))),
             Num(if key < |st.counters| then 0 else 1))
    else Trap
  }

  /** The walkers read the IPv6 header behind l3_hdr and write l4_offset, and ipv6_eh for the second. */
  function CallParseIpv6(env: Env, record: bool, st: State): Action {
    if && st.regs[1] == Frame(ARG) && L3_HDR in st.frame && st.frame[L3_HDR].val.Pkt?
       && HasNum(st, L3_OFFSET) && st.frame[L3_HDR].val.at == FrameNum(st, L3_OFFSET)
       && st.frame[L3_HDR].val.len >= Ipv6Walk.IPV6_HDR_LEN
       && InData(env, FrameNum(st, L3_OFFSET), Ipv6Walk.IPV6_HDR_LEN) then
      var t := Ipv6Walk.Walk(env, FrameNum(st, L3_OFFSET), Ipv6Walk.MAX_CHAIN);
      var st' := st.(frame := st.frame[L4_OFFSET := Slot(Num(t.off % TWO32), 4)]);
      if record then
        Return(st'.(frame := st'.frame[IPV6_EH := Slot(Num(Ipv6Walk.HeaderMask(t.types) % TWO8), 1)]), Num(t.proto))
      else
        Return(st', Num(Ipv6Walk.EhResult(t)))
    else Trap
  }

  function CallLog(env: Env, link: Link, st: State): Action {
    if && st.regs[1] == Frame(ARG) && st.regs[2].Num? && st.regs[3].Num? && st.regs[4].Num? && st.regs[5].Num?
       && LOG_MAP in st.frame && st.frame[LOG_MAP].val == MapRef(link.log) && HasNum(st, PKT_SIZE) then
      if env.logRoom then
        Return(st.(logs := st.logs + [LogEntry(st.regs[2].n % TWO32, st.regs[3].n % TWO8, st.regs[4].n % TWO16,
                                               st.regs[5].n % TWO8, FrameNum(st, PKT_SIZE))]), Num(0))
      else Return(st, Num(1))
    else Trap
  }

  function CallStub(env: Env, link: Link, stub: Stub, st: State): Action {
    match stub
    case ParseIpv6Eh => CallParseIpv6(env, false, st)
    case ParseIpv6Nh => CallParseIpv6(env, true, st)
    case UpdateCounters => CallUpdateCounters(link, st)
    case Log => CallLog(env, link, st)
  }

  function Branch(item: Item, t: Test, st: State): Action {
    if !t.legal then Trap
    else if !t.taken then Go(0, st)
    else if item.reloc.NextRule? then Escape(st)
    else if item.insn.off < 0 then Trap
    else Go(item.insn.off, st)
  }

  /** A two-slot load: `hi` is the immediate of the second slot, negative when there is none. */
  function LoadWide(link: Link, item: Item, hi: int, st: State): Action {
    if hi < 0 || item.insn.dst == 10 then Trap
    else
      match item.insn.op
      case LdImm64 => Go(1, WithReg(st, item.insn.dst, Num(item.insn.imm % TWO32 + TWO32 * (hi % TWO32))))
      case LdMapFd =>
        Go(1, WithReg(st, item.insn.dst,
                      MapRef(if item.reloc.MapFd? then link.Fd(item.reloc.kind) else item.insn.imm)))
      case _ => Trap
  }

  /** One instruction. `hi` is the immediate of a second slot that follows, else -1. */
  function Exec(env: Env, link: Link, item: Item, hi: int, st: State): Action {
    var Insn(op, dst, src, off, imm) := item.insn;
    match op
    case Alu64Imm(alu) => SetReg(st, dst, Alu64(alu, st.regs[dst], Imm64(imm)))
    case Alu64Reg(alu) => SetReg(st, dst, Alu64(alu, st.regs[dst], st.regs[src]))
    case Alu32Imm(alu) => SetReg(st, dst, Alu32(alu, st.regs[dst], Imm64(imm)))
    case Alu32Reg(alu) => SetReg(st, dst, Alu32(alu, st.regs[dst], st.regs[src]))
    case Bswap => if st.regs[dst].Num? then SetReg(st, dst, Num(Swap16(st.regs[dst].n))) else Trap
    case Ldx(size) => SetReg(st, dst, Load(env, size, st.regs[src], off, st))
    case Stx(size) => Store(size, st.regs[dst], off, st.regs[src], st)
    case St(size) => Store(size, st.regs[dst], off, Imm64(imm), st)
    case JmpImm(cond) => Branch(item, Compare(cond, st.regs[dst], Imm64(imm)), st)
    case JmpReg(cond) => Branch(item, Compare(cond, st.regs[dst], st.regs[src]), st)
    case Ja => Branch(item, Test(true, true), st)
    case Kfunc(kernel) => CallKernel(env, kernel, st)
    case CallRel => if item.reloc.StubCall? then CallStub(env, link, item.reloc.stub, st) else Trap
    case Exit => if st.regs[0].Num? then Halt(st) else Trap
    case SecondSlot => Trap
    case _ => LoadWide(link, item, hi, st)
  }

  /** The second-slot immediate after position pc, or -1. */
  function HighSlot(code: seq<Item>, pc: nat): int {
    if pc + 1 < |code| && code[pc + 1].insn.op.SecondSlot? then code[pc + 1].insn.imm % TWO32 else -1
  }

  /** How control leaves a piece of code: exit, k instructions past its end, to the next rule, or a trap. */
  datatype Outcome = Done(st: State) | At(k: nat, st: State) | Next(st: State) | Crash

  function Run(env: Env, link: Link, code: seq<Item>, pc: nat, st: State): Outcome
    decreases |code| - pc
  {
    if pc >= |code| then At(pc - |code|, st)
    else
      match Exec(env, link, code[pc], HighSlot(code, pc), st)
      case Go(skip, st') => Run(env, link, code, pc + 1 + skip, st')
      case Escape(st') => Next(st')
      case Halt(st') => Done(st')
      case Trap => Crash
  }

  // A piece whose last instruction does not have its second slot outside the piece.
  predicate Closed(code: seq<Item>) {
    code != [] ==> !TwoSlot(code[|code| - 1].insn.op)
  }

  /** Continue with `b` wherever control left the code before it. */
  function Then(env: Env, link: Link, o: Outcome, b: seq<Item>): Outcome {
    match o case At(k, st) => Run(env, link, b, k, st) case _ => o
  }

  /** Executing a concatenation is executing the pieces one after the other. */
  lemma {:induction false} RunConcat(env: Env, link: Link, a: seq<Item>, b: seq<Item>, pc: nat, st: State)
    requires Closed(a)
    ensures Run(env, link, a + b, pc, st) == Then(env, link, Run(env, link, a, pc, st), b)
    decreases |a| - pc
  {
    hide Exec;
    if pc < |a| {
      assert (a + b)[pc] == a[pc];
      HighSlotConcat(a, b, pc, a[pc].insn.op);
      ExecIgnoresHigh(env, link, a[pc], HighSlot(a, pc), HighSlot(a + b, pc), st);
      match Exec(env, link, a[pc], HighSlot(a, pc), st)
      case Go(skip, st') => RunConcat(env, link, a, b, pc + 1 + skip, st');
      case _ =>
    } else {
      RunShift(env, link, a, b, pc, st);
    }
  }

  lemma HighSlotConcat(a: seq<Item>, b: seq<Item>, pc: nat, op: Op)
    requires pc < |a| && op == a[pc].insn.op && Closed(a)
    ensures TwoSlot(op) ==> HighSlot(a + b, pc) == HighSlot(a, pc)
  {
    if TwoSlot(op) {
      assert pc + 1 < |a|;
      assert (a + b)[pc + 1] == a[pc + 1];
    }
  }

  // Only two-slot loads look at the following instruction.
  lemma ExecIgnoresHigh(env: Env, link: Link, item: Item, hi: int, hi': int, st: State)
    requires TwoSlot(item.insn.op) ==> hi == hi'
    ensures Exec(env, link, item, hi, st) == Exec(env, link, item, hi', st)
  {
  }

  lemma {:induction false} RunShift(env: Env, link: Link, a: seq<Item>, b: seq<Item>, pc: nat, st: State)
    requires pc >= |a|
    ensures Run(env, link, a + b, pc, st) == Run(env, link, b, pc - |a|, st)
    decreases |a| + |b| - pc
  {
    hide Exec;
    if pc < |a + b| {
      assert (a + b)[pc] == b[pc - |a|];
      assert HighSlot(a + b, pc) == HighSlot(b, pc - |a|);
      match Exec(env, link, b[pc - |a|], HighSlot(b, pc - |a|), st)
      case Go(skip, st') => RunShift(env, link, a, b, pc + 1 + skip, st');
      case _ =>
    }
  }
}
