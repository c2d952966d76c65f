/**
 Finished images: relocated instructions executed by the concrete machine, one instruction
 per step, calls resolved by the distance to a stub's first instruction. The relocatable
 meaning of a piece of code carries over to every image that starts with its linked form.
 */
module Image {
  import opened Bits
  import opened Packet
  import opened Bpf

  /** Where each ELF stub starts in the image. */
  type Layout = map<Stub, nat>

  datatype Finish = Finished(st: State) | Faulted | OutOfSteps

  predicate Distinct(layout: Layout) {
    forall s, t :: s in layout && t in layout && layout[s] == layout[t] ==> s == t
  }

  predicate Calls(layout: Layout, stub: Stub, at: int) {
    stub in layout && layout[stub] == at
  }

  function CallTarget(env: Env, link: Link, layout: Layout, at: int, st: State): Action {
    if Calls(layout, UpdateCounters, at) then CallStub(env, link, UpdateCounters, st)
    else if Calls(layout, ParseIpv6Eh, at) then CallStub(env, link, ParseIpv6Eh, st)
    else if Calls(layout, ParseIpv6Nh, at) then CallStub(env, link, ParseIpv6Nh, st)
    else if Calls(layout, Log, at) then CallStub(env, link, Log, st)
    else Trap
  }

  function HighInsn(img: seq<Insn>, pc: nat): int {
    if pc + 1 < |img| && img[pc + 1].op.SecondSlot? then img[pc + 1].imm % TWO32 else -1
  }

  function ExecInsn(env: Env, link: Link, layout: Layout, img: seq<Insn>, pc: nat, st: State): Action
    requires pc < |img|
  {
    if img[pc].op.CallRel? then CallTarget(env, link, layout, pc + 1 + img[pc].imm, st)
    else Exec(env, link, Item(img[pc], Fixed), HighInsn(img, pc), st)
  }

  function RunImage(env: Env, link: Link, layout: Layout, img: seq<Insn>, pc: nat, st: State, steps: nat): Finish
    decreases steps
  {
    if steps == 0 then OutOfSteps
    else if pc >= |img| then Faulted
    else
      match ExecInsn(env, link, layout, img, pc, st)
      case Go(skip, st') => RunImage(env, link, layout, img, pc + 1 + skip, st', steps - 1)
      case Halt(st') => Finished(st')
      case Escape(_) => Faulted
      case Trap => Faulted
  }

  /** An item after every fixup has been applied. */
  function LinkItem(link: Link, layout: Layout, item: Item, at: nat): Insn {
    match item.reloc
    case MapFd(kind) => item.insn.(imm := link.Fd(kind))
    case StubCall(stub) => if stub in layout then item.insn.(imm := layout[stub] - at - 1) else item.insn
    case _ => item.insn
  }

  predicate LinkedItem(link: Link, layout: Layout, item: Item, insn: Insn, at: nat) {
    && insn == LinkItem(link, layout, item, at)
    && !item.reloc.NextRule?
    && (item.reloc.StubCall? ==> item.insn.op.CallRel? && item.reloc.stub in layout)
    && (item.reloc.MapFd? ==> item.insn.op.LdMapFd?)
    && (item.insn.op.CallRel? ==> item.reloc.StubCall?)
  }

  /** The image starts with the linked form of the code. */
  predicate Contains(link: Link, layout: Layout, code: seq<Item>, img: seq<Insn>) {
    |code| <= |img| && forall i :: 0 <= i < |code| ==> LinkedItem(link, layout, code[i], img[i], i)
  }

  lemma LinkedExec(env: Env, link: Link, layout: Layout, code: seq<Item>, img: seq<Insn>, pc: nat, st: State)
    requires Contains(link, layout, code, img) && Distinct(layout) && pc < |code| && Closed(code)
    ensures ExecInsn(env, link, layout, img, pc, st) == Exec(env, link, code[pc], HighSlot(code, pc), st)
  {
    assert LinkedItem(link, layout, code[pc], img[pc], pc);
    if pc + 1 < |code| {
      assert LinkedItem(link, layout, code[pc + 1], img[pc + 1], pc + 1);
    }
    var item := code[pc];
    if item.insn.op.CallRel? {
      hide CallParseIpv6, CallLog, CallUpdateCounters;
    } else {
      LinkedHigh(link, layout, code, img, pc);
      ExecIgnoresHigh(env, link, Item(img[pc], Fixed), HighInsn(img, pc), HighSlot(code, pc), st);
      hide Load, Store, CallKernel, CallStub, Compare, Alu64, Alu32;
    }
  }

  lemma LinkedHigh(link: Link, layout: Layout, code: seq<Item>, img: seq<Insn>, pc: nat)
    requires Contains(link, layout, code, img) && pc < |code| && Closed(code)
    ensures TwoSlot(code[pc].insn.op) ==> HighInsn(img, pc) == HighSlot(code, pc)
  {
    if TwoSlot(code[pc].insn.op) {
      assert LinkedItem(link, layout, code[pc + 1], img[pc + 1], pc + 1);
    }
  }

  /** A run that ends inside the code ends the same way in the image, one step per instruction at most. */
  lemma {:induction false} LinkedRun(env: Env, link: Link, layout: Layout, code: seq<Item>, img: seq<Insn>,
                                     pc: nat, st: State, steps: nat)
    requires Contains(link, layout, code, img) && Distinct(layout) && Closed(code)
    requires Run(env, link, code, pc, st).Done? && pc <= |code| && steps >= |code| - pc
    ensures RunImage(env, link, layout, img, pc, st, steps) == Finished(Run(env, link, code, pc, st).st)
    decreases |code| - pc
  {
    hide Exec, ExecInsn, HighSlot, Contains;
    assert |code| <= |img| by { ContainsLen(link, layout, code, img); }
    if pc < |code| {
      LinkedExec(env, link, layout, code, img, pc, st);
      match Exec(env, link, code[pc], HighSlot(code, pc), st)
      case Go(skip, st') =>
        assert pc + 1 + skip < |code| by { DoneInside(env, link, code, pc + 1 + skip, st'); }
        LinkedRun(env, link, layout, code, img, pc + 1 + skip, st', steps - 1);
      case _ =>
    }
  }

  lemma ContainsLen(link: Link, layout: Layout, code: seq<Item>, img: seq<Insn>)
    requires Contains(link, layout, code, img)
    ensures |code| <= |img|
  {
  }

  lemma DoneInside(env: Env, link: Link, code: seq<Item>, pc: nat, st: State)
    requires Run(env, link, code, pc, st).Done?
    ensures pc < |code|
  {
  }
}
