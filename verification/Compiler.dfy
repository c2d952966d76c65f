/**
 A chain as relocatable code, and the proof that this code decides every packet as the
 reference semantics does: the first matching terminal rule, else the policy, with the
 counters, marks and log entries of every rule that matched on the way.
 */
module Compiler {
  import opened Bits
  import opened Packet
  import opened Bpf
  import opened Asm
  import opened Switch
  import opened Chain
  import opened Reference
  import opened Matchers
  import opened Prologue
  import Kernel

  // ---- reference semantics of a chain ----

  /** What a packet changes: the program argument (mark), the counters, the log. */
  datatype World = World(arg: map<int, nat>, counters: seq<Counter>, logs: seq<LogEntry>)

  function WorldOf(st: State): World {
    World(st.arg, st.counters, st.logs)
  }

  function MarkIn(w: World): nat {
    if SKB_MARK in w.arg then w.arg[SKB_MARK] else 0
  }

  predicate RuleOk(r: Rule) {
    forall m :: m in r.matchers ==> WellFormed(m)
  }

  /** The effects of a matching rule, in order: mark, log, counter. */
  function Marked(w: World, r: Rule): World {
    if r.MarkIsSet() then w.(arg := w.arg[SKB_MARK := r.Mark()]) else w
  }

  function Logged(env: Env, v: View, w: World, r: Rule): World {
    if r.log != 0 && env.logRoom
    then w.(logs := w.logs + [LogEntry(r.index % TWO32, r.log, v.l3 % TWO16, v.l4 % TWO8, v.size)]) else w
  }

  function Counted(v: View, w: World, r: Rule): World {
    if r.counters then w.(counters := Bump(w.counters, r.index, v.size)) else w
  }

  function Applied(env: Env, v: View, w: World, r: Rule): World {
    Counted(v, Logged(env, v, Marked(w, r), r), r)
  }

  datatype Decision = Decision(verdict: Verdict, world: World)

  /** First matching terminal rule, else the policy counted under its own key. */
  function Decide(env: Env, v: View, rules: seq<Rule>, policy: Verdict, policyKey: nat, w: World): Decision
    requires ValidView(env, v) && forall r :: r in rules ==> RuleOk(r)
  {
    if rules == [] then Decision(policy, w.(counters := Bump(w.counters, policyKey, v.size)))
    else
      assert rules[0] in rules && RuleOk(rules[0]);
      if RuleMatches(env, MarkIn(w), v, rules[0].matchers) then
        var w' := Applied(env, v, w, rules[0]);
        if Terminal(rules[0].verdict) then Decision(rules[0].verdict, w')
        else Decide(env, v, rules[1..], policy, policyKey, w')
      else Decide(env, v, rules[1..], policy, policyKey, w)
  }

  /** Keys of the counters map: one per rule, then the policy, then errors. */
  function PolicyKey(c: Chain): nat { |c.rules| }
  function ErrorKey(c: Chain): nat { |c.rules| + 1 }

  predicate ChainOk(c: Chain) {
    ValidChain(c) && Validate(c) && (forall r :: r in c.rules ==> RuleOk(r)) && |c.rules| + 1 < TWO31
  }

  lemma ParseIsValid(hook: Hook, record: bool, env: Env, arg: map<int, nat>)
    requires ArgOk(hook, arg) && Parse(hook, record, env, arg).Parsed?
    ensures ValidView(env, Parse(hook, record, env, arg).v)
  {
  }

  /** What the chain does with a packet: packets whose headers cannot be read are accepted. */
  function Filter(c: Chain, env: Env, w: World): Decision
    requires ChainOk(c) && ArgOk(c.hook, w.arg)
  {
    match Parse(c.hook, c.flags.storeNexthdr, env, w.arg)
    case Rejected =>
      Decision(Accept, w.(counters := Bump(w.counters, ErrorKey(c), PacketSize(c.hook, w.arg))))
    case Parsed(v) =>
      ParseIsValid(c.hook, c.flags.storeNexthdr, env, w.arg);
      Decide(env, v, c.rules, c.policy, PolicyKey(c), w)
  }

  /** Return code of a terminal verdict for each hook: the kernel passes what is accepted and drops the rest. */
  function ReturnCode(hook: Hook, v: Verdict): (n: nat)
    ensures n < 3 && Kernel.FateOf(hook, n) == if v == Accept then Kernel.Passed else Kernel.Dropped
  {
    match hook
    case Xdp => if v == Accept then 2 else 1
    case TcIngress => if v == Accept then 0 else 2
    case TcEgress => if v == Accept then 0 else 2
    case _ => if v == Accept then 1 else 0
  }

  // ---- code of a rule ----

  function MatchersCode(ms: seq<Matcher>): seq<Item>
    requires forall m :: m in ms ==> WellFormed(m)
  {
    if ms == [] then []
    else
      assert ms[0] in ms;
      MatcherCode(ms[0]) + MatchersCode(ms[1..])
  }

  function SetMarkCode(r: Rule): seq<Item> {
    if r.MarkIsSet()
    then [LdxMem(DW, 1, 10, ARG), Mov64Imm(2, S32(r.Mark())), StxMem(W, 1, 2, SKB_MARK)] else []
  }

  function LogCode(r: Rule): seq<Item> {
    if r.log != 0
    then [Mov64Reg(1, 10), AluImm(Add, 1, ARG), Mov64Imm(2, r.index), Mov64Imm(3, r.log), Mov64Reg(4, 7),
          Mov64Reg(5, 8), CallStubItem(Log)]
    else []
  }

  function RuleCountCode(r: Rule): seq<Item> {
    if r.counters then CountCode(r.index) else []
  }

  function VerdictCode(hook: Hook, v: Verdict): seq<Item> {
    if Terminal(v) then ExitCode(ReturnCode(hook, v)) else []
  }

  function ActionCode(hook: Hook, r: Rule): seq<Item> {
    SetMarkCode(r) + (LogCode(r) + (RuleCountCode(r) + VerdictCode(hook, r.verdict)))
  }

  function RuleBody(hook: Hook, r: Rule): seq<Item>
    requires RuleOk(r)
  {
    MatchersCode(r.matchers) + ActionCode(hook, r)
  }

  /** A next-rule jump resolved to the end of the code it is in. */
  function ResolveItem(item: Item, distance: int): Item {
    if item.reloc.NextRule? then Item(item.insn.(off := distance), Fixed) else item
  }

  function Resolve(code: seq<Item>): (r: seq<Item>)
    ensures |r| == |code|
    ensures forall i :: 0 <= i < |code| ==> r[i] == ResolveItem(code[i], |code| - i - 1)
  {
    seq(|code|, i requires 0 <= i < |code| => ResolveItem(code[i], |code| - i - 1))
  }

  function RuleCode(hook: Hook, r: Rule): seq<Item>
    requires RuleOk(r)
  {
    Resolve(RuleBody(hook, r))
  }

  function RulesCode(hook: Hook, rules: seq<Rule>): seq<Item>
    requires forall r :: r in rules ==> RuleOk(r)
  {
    if rules == [] then []
    else
      assert rules[0] in rules;
      RuleCode(hook, rules[0]) + RulesCode(hook, rules[1..])
  }

  function ChainCode(c: Chain): seq<Item>
    requires ChainOk(c)
  {
    PrologueCode(c.hook, c.flags, ErrorKey(c), ReturnCode(c.hook, Accept))
    + (RulesCode(c.hook, c.rules) + CountAndExit(PolicyKey(c), ReturnCode(c.hook, c.policy)))
  }

  // ---- meaning of a rule ----

  /** A next-rule jump leaves the resolved code at its end. */
  function AtEnd(o: Outcome): Outcome {
    if o.Next? then At(0, o.st) else o
  }

  lemma {:induction false} ResolveMeaning(env: Env, link: Link, code: seq<Item>, pc: nat, st: State)
    requires forall x :: x in code ==> (x.reloc.NextRule? ==> IsJump(x.insn.op) && x.insn.off >= 0)
    ensures Run(env, link, Resolve(code), pc, st) == AtEnd(Run(env, link, code, pc, st))
    decreases |code| - pc
  {
    hide Exec, Tested, HighSlot;
    if pc < |code| {
      assert code[pc] in code;
      if code[pc].reloc.NextRule? {
        hide Run;
        ResolveJump(env, link, code, pc, st);
        if Tested(code[pc], st) == Test(true, false) {
          ResolveMeaning(env, link, code, pc + 1, st);
        }
      } else {
        ResolveHigh(code, pc);
        EscapesOnlyToNextRule(env, link, code[pc], HighSlot(code, pc), st);
        match Exec(env, link, code[pc], HighSlot(code, pc), st)
        case Go(skip, st') => ResolveMeaning(env, link, code, pc + 1 + skip, st');
        case _ =>
      }
    }
  }

  lemma EscapesOnlyToNextRule(env: Env, link: Link, item: Item, hi: int, st: State)
    requires !item.reloc.NextRule?
    ensures !Exec(env, link, item, hi, st).Escape?
  {
  }

  lemma ResolveHigh(code: seq<Item>, pc: nat)
    requires pc < |code|
    ensures HighSlot(Resolve(code), pc) == HighSlot(code, pc)
  {
  }

  lemma ResolveJump(env: Env, link: Link, code: seq<Item>, pc: nat, st: State)
    requires pc < |code| && code[pc].reloc.NextRule? && IsJump(code[pc].insn.op) && code[pc].insn.off >= 0
    ensures var t := Tested(code[pc], st);
            if !t.legal then Run(env, link, code, pc, st).Crash? && Run(env, link, Resolve(code), pc, st).Crash?
            else if t.taken then
              Run(env, link, code, pc, st) == Next(st) && Run(env, link, Resolve(code), pc, st) == At(0, st)
            else
              && Run(env, link, code, pc, st) == Run(env, link, code, pc + 1, st)
              && Run(env, link, Resolve(code), pc, st) == Run(env, link, Resolve(code), pc + 1, st)
  {
    var r, t := Resolve(code), Tested(code[pc], st);
    TestedIgnoresOffset(code[pc], |code| - pc - 1, st);
    assert Tested(r[pc], st) == t;
    if t.legal {
      hide Run, Exec, Tested;
      StepJump(env, link, code, pc, st, t.taken);
      StepJump(env, link, r, pc, st, t.taken);
      RunEnd(env, link, r, |code|, st);
    } else {
      hide Compare, Imm64;
    }
  }

  lemma MatcherShape(m: Matcher)
    requires WellFormed(m)
    ensures var c := MatcherCode(m);
            && c != [] && c[|c| - 1].reloc.NextRule? && Closed(c)
            && forall x :: x in c ==> (x.reloc.NextRule? ==> IsJump(x.insn.op) && x.insn.off >= 0)
  {
    hide SwitchCode, MaskWord, NetWord, U32;
    if m.kind == MetaSport || m.kind == MetaDport {
      PortShape(m);
    }
  }

  lemma PortShape(m: Matcher)
    requires WellFormed(m) && (m.kind == MetaSport || m.kind == MetaDport)
    ensures var c := PortCode(m);
            && c != [] && c[|c| - 1].reloc.NextRule? && Closed(c)
            && forall x :: x in c ==> (x.reloc.NextRule? ==> IsJump(x.insn.op) && x.insn.off >= 0)
  {
    hide SwitchCode;
    var sw := SwitchCode(8, PortCases(m.kind), NO_PORT);
    PortSwitchPlain(m.kind);
  }

  lemma PortSwitchPlain(kind: MatcherKind)
    ensures forall x :: x in SwitchCode(8, PortCases(kind), NO_PORT) ==> x.reloc.Fixed?
  {
    var a, b := PortCases(kind)[0], PortCases(kind)[1];
    assert PortCases(kind)[1..] == [b] && [b][1..] == [];
    assert Tests(8, [b], 3) == [JumpImm(Jeq, 8, S32(UDP), 3)] + Tests(8, [], 5);
    assert Tests(8, PortCases(kind), 1) == [JumpImm(Jeq, 8, S32(TCP), 2)] + Tests(8, [b], 3);
    assert Bodies([b], 1) == b.body + [Jump(BodiesLen([]) + 1)] + Bodies([], 1);
    assert Bodies(PortCases(kind), 1) == a.body + [Jump(BodiesLen([b]) + 1)] + Bodies([b], 1);
  }

  lemma {:induction false} MatchersShape(ms: seq<Matcher>)
    requires forall m :: m in ms ==> WellFormed(m)
    ensures Closed(MatchersCode(ms))
    ensures forall x :: x in MatchersCode(ms) ==> (x.reloc.NextRule? ==> IsJump(x.insn.op) && x.insn.off >= 0)
    decreases |ms|
  {
    if ms != [] {
      hide MatcherCode, WellFormed;
      assert ms[0] in ms;
      MatcherShape(ms[0]);
      MatchersShape(ms[1..]);
      var a, b := MatcherCode(ms[0]), MatchersCode(ms[1..]);
      if b != [] {
        assert (a + b)[|a + b| - 1] == b[|b| - 1];
      }
    }
  }

  /** What the chain guarantees to each of its rules. */
  predicate RuleFits(hook: Hook, record: bool, log: bool, r: Rule) {
    && RuleOk(r) && r.index < TWO31
    && (r.MarkIsSet() ==> !hook.Xdp?) && (UsesKind(r, MetaMark) ==> !hook.Xdp?)
    && (UsesKind(r, Ip6Nexthdr) ==> record) && (r.log != 0 ==> log)
  }

  /** The rule-level machine invariant. */
  predicate InRules(env: Env, link: Link, hook: Hook, record: bool, log: bool, v: View, st: State) {
    Ready(env, record, v, st) && LogReady(link, log, st) && ArgOk(hook, st.arg)
  }

  predicate NeedsMet(record: bool, ms: seq<Matcher>, st: State) {
    forall m :: m in ms ==> (m.kind == MetaMark ==> HasMark(st)) && (m.kind == Ip6Nexthdr ==> record)
  }

  lemma {:induction false} MatchersMeaning(env: Env, link: Link, record: bool, v: View, ms: seq<Matcher>, st: State)
    requires Ready(env, record, v, st) && (forall m :: m in ms ==> WellFormed(m)) && NeedsMet(record, ms, st)
    ensures Decided(Run(env, link, MatchersCode(ms), 0, st), RuleMatches(env, MarkOf(st), v, ms), st)
    decreases |ms|
  {
    hide Exec, Run, MatcherCode, WellFormed, Holds, Ready;
    ReadyView(env, record, v, st);
    if ms == [] {
      RunEnd(env, link, [], 0, st);
    } else {
      var a, b := MatcherCode(ms[0]), MatchersCode(ms[1..]);
      assert ms[0] in ms;
      MatcherShape(ms[0]);
      RunConcat(env, link, a, b, 0, st);
      MatcherMeaning(env, link, record, v, ms[0], st);
      assert forall m :: m in ms <==> m == ms[0] || m in ms[1..];
      if Holds(env, MarkOf(st), v, ms[0]) {
        var s := Run(env, link, a, 0, st).st;
        StillReady(env, record, v, st, s);
        MatchersMeaning(env, link, record, v, ms[1..], s);
      }
    }
  }

  lemma ReadyView(env: Env, record: bool, v: View, st: State)
    requires Ready(env, record, v, st)
    ensures ValidView(env, v)
  {
  }

  /** Only scratch registers and the named part of the world changed. */
  predicate Became(o: Outcome, st: State, w: World) {
    o.At? && o.k == 0 && o.st.frame == st.frame && o.st.regs[7..] == st.regs[7..] && WorldOf(o.st) == w
  }

  lemma SetMarkMeaning(env: Env, link: Link, record: bool, v: View, r: Rule, st: State)
    requires Ready(env, record, v, st)
    ensures Became(Run(env, link, SetMarkCode(r), 0, st), st, Marked(WorldOf(st), r))
  {
    hide Exec, Run;
    var c := SetMarkCode(r);
    if r.MarkIsSet() {
      var s1 := StepLoadPtr(env, link, c, 0, st, Arg);
      var s2 := StepImm(env, link, c, 1, s1, Imm64(S32(r.Mark())));
      var s3 := StepStoreArg(env, link, c, 2, s2);
      WordImm(r.Mark());
      RunEnd(env, link, c, 3, s3);
    } else {
      RunEnd(env, link, c, 0, st);
    }
  }

  /** Store a register into a field of the program argument. */
  lemma StepStoreArg(env: Env, link: Link, code: seq<Item>, pc: nat, st: State) returns (st': State)
    requires pc < |code| && code[pc].insn.op == Stx(W) && st.regs[code[pc].insn.dst] == Arg
    requires st.regs[code[pc].insn.src].Num?
    ensures st' == st.(arg := st.arg[code[pc].insn.off := st.regs[code[pc].insn.src].n % TWO32])
    ensures Run(env, link, code, pc, st) == Run(env, link, code, pc + 1, st')
  {
    st' := st.(arg := st.arg[code[pc].insn.off := st.regs[code[pc].insn.src].n % TWO32]);
  }

  lemma LogMeaning(env: Env, link: Link, record: bool, v: View, r: Rule, st: State)
    requires Ready(env, record, v, st) && LogReady(link, r.log != 0, st) && r.index < TWO31
    ensures Became(Run(env, link, LogCode(r), 0, st), st, Logged(env, v, WorldOf(st), r))
  {
    hide Exec, Run, CallParseIpv6, CallUpdateCounters;
    var c := LogCode(r);
    if r.log != 0 {
      ModNoop(r.index, TWO64);
      ModNoop(r.log, TWO64);
      ModNoop(r.log, TWO8);
      var s1 := StepReg(env, link, c, 0, st, Frame(0));
      var s2 := StepImm(env, link, c, 1, s1, Frame(ARG));
      var s3 := StepImm(env, link, c, 2, s2, Num(r.index));
      var s4 := StepImm(env, link, c, 3, s3, Num(r.log));
      var s5 := StepReg(env, link, c, 4, s4, Num(v.l3));
      var s6 := StepReg(env, link, c, 5, s5, Num(v.l4));
      assert s6.regs[7..] == st.regs[7..];
      var s7 := StepLog(env, link, c, 6, s6);
      RunEnd(env, link, c, 7, s7);
    } else {
      RunEnd(env, link, c, 0, st);
    }
  }

  lemma RuleCountMeaning(env: Env, link: Link, record: bool, v: View, r: Rule, st: State)
    requires Ready(env, record, v, st) && r.index < TWO31
    ensures Became(Run(env, link, RuleCountCode(r), 0, st), st, Counted(v, WorldOf(st), r))
  {
    hide Exec, Run, Bump, CountCode;
    if r.counters {
      CountMeaning(env, link, r.index, st);
      var o := Run(env, link, RuleCountCode(r), 0, st);
      assert o.st.regs[7..] == o.st.regs[6..][1..] && st.regs[7..] == st.regs[6..][1..];
    } else {
      RunEnd(env, link, RuleCountCode(r), 0, st);
    }
  }

  /** Ready survives everything a rule does, since only r0-r6 and the world change. */
  lemma ReadyByFrame(env: Env, record: bool, v: View, st: State, st': State)
    requires Ready(env, record, v, st) && st'.frame == st.frame && st'.regs[7..] == st.regs[7..]
    ensures Ready(env, record, v, st')
    ensures forall link, log :: LogReady(link, log, st) ==> LogReady(link, log, st')
  {
    assert st'.regs[7] == st'.regs[7..][0] && st'.regs[8] == st'.regs[7..][1] && st'.regs[10] == st'.regs[7..][3];
    assert st.regs[7] == st.regs[7..][0] && st.regs[8] == st.regs[7..][1] && st.regs[10] == st.regs[7..][3];
  }

  lemma ActionClosed(r: Rule)
    ensures Closed(SetMarkCode(r)) && Closed(LogCode(r)) && Closed(RuleCountCode(r))
  {
  }

  lemma ActionMeaning(env: Env, link: Link, hook: Hook, record: bool, v: View, r: Rule, st: State)
    requires Ready(env, record, v, st) && LogReady(link, r.log != 0, st) && r.index < TWO31
    ensures var o := Run(env, link, ActionCode(hook, r), 0, st);
            var w := Applied(env, v, WorldOf(st), r);
            if Terminal(r.verdict) then o.Done? && o.st.regs[0] == Num(ReturnCode(hook, r.verdict)) && WorldOf(o.st) == w
            else Became(o, st, w)
  {
    hide Exec, Run, SetMarkCode, LogCode, RuleCountCode, Marked, Logged, Counted, Ready, LogReady;
    var m, l, c, d := SetMarkCode(r), LogCode(r), RuleCountCode(r), VerdictCode(hook, r.verdict);
    ActionClosed(r);
    RunConcat(env, link, m, l + (c + d), 0, st);
    SetMarkMeaning(env, link, record, v, r, st);
    var s1 := Run(env, link, m, 0, st).st;
    ReadyByFrame(env, record, v, st, s1);
    RunConcat(env, link, l, c + d, 0, s1);
    LogMeaning(env, link, record, v, r, s1);
    var s2 := Run(env, link, l, 0, s1).st;
    ReadyByFrame(env, record, v, s1, s2);
    RunConcat(env, link, c, d, 0, s2);
    RuleCountMeaning(env, link, record, v, r, s2);
    var s3 := Run(env, link, c, 0, s2).st;
    if Terminal(r.verdict) {
      ExitMeaning(env, link, ReturnCode(hook, r.verdict), s3);
    } else {
      RunEnd(env, link, d, 0, s3);
    }
  }

  /** A rule either does not match and changes nothing, or applies its effects and its verdict. */
  predicate RuleOutcome(env: Env, hook: Hook, v: View, r: Rule, st: State, o: Outcome)
    requires ValidView(env, v) && RuleOk(r)
  {
    var w := WorldOf(st);
    if !RuleMatches(env, MarkIn(w), v, r.matchers) then Became(o, st, w)
    else if Terminal(r.verdict) then
      o.Done? && o.st.regs[0] == Num(ReturnCode(hook, r.verdict)) && WorldOf(o.st) == Applied(env, v, w, r)
    else Became(o, st, Applied(env, v, w, r))
  }

  lemma RuleNeeds(hook: Hook, record: bool, log: bool, r: Rule, st: State)
    requires RuleFits(hook, record, log, r) && ArgOk(hook, st.arg)
    ensures NeedsMet(record, r.matchers, st)
  {
    hide WellFormed;
    forall m | m in r.matchers
      ensures (m.kind == MetaMark ==> HasMark(st)) && (m.kind == Ip6Nexthdr ==> record)
    {
      assert UsesKind(r, m.kind);
    }
  }

  lemma RuleMeaning(env: Env, link: Link, hook: Hook, record: bool, log: bool, v: View, r: Rule, st: State)
    requires InRules(env, link, hook, record, log, v, st) && RuleFits(hook, record, log, r)
    ensures ValidView(env, v) && RuleOutcome(env, hook, v, r, st, Run(env, link, RuleCode(hook, r), 0, st))
  {
    hide Exec, Run, MatchersCode, ActionCode, Ready, WellFormed, Holds, Applied, LogReady, Resolve, ArgOk;
    ReadyView(env, record, v, st);
    RuleNeeds(hook, record, log, r, st);
    LogReadyWeaker(link, log, r.log != 0, st);
    var a, b := MatchersCode(r.matchers), ActionCode(hook, r);
    RuleShape(hook, r);
    ResolveMeaning(env, link, a + b, 0, st);
    MatchersShape(r.matchers);
    RunConcat(env, link, a, b, 0, st);
    MatchersMeaning(env, link, record, v, r.matchers, st);
    if RuleMatches(env, MarkOf(st), v, r.matchers) {
      var s := Run(env, link, a, 0, st).st;
      ReadyByFrame(env, record, v, st, s);
      ActionMeaning(env, link, hook, record, v, r, s);
    }
  }

  lemma LogReadyWeaker(link: Link, log: bool, need: bool, st: State)
    requires LogReady(link, log, st) && (need ==> log)
    ensures LogReady(link, need, st)
  {
  }

  lemma RuleShape(hook: Hook, r: Rule)
    requires RuleOk(r)
    ensures forall x :: x in RuleBody(hook, r) ==> (x.reloc.NextRule? ==> IsJump(x.insn.op) && x.insn.off >= 0)
    ensures Closed(RuleBody(hook, r))
  {
    hide MatchersCode, WellFormed, ActionCode;
    MatchersShape(r.matchers);
    ActionShape(hook, r);
    var a, b := MatchersCode(r.matchers), ActionCode(hook, r);
    if b != [] {
      assert (a + b)[|a + b| - 1] == b[|b| - 1];
    }
  }

  predicate NoNextRule(code: seq<Item>) {
    forall x :: x in code ==> !x.reloc.NextRule?
  }

  lemma PartShape(hook: Hook, r: Rule)
    ensures NoNextRule(SetMarkCode(r)) && NoNextRule(LogCode(r)) && NoNextRule(RuleCountCode(r))
    ensures NoNextRule(VerdictCode(hook, r.verdict)) && Closed(VerdictCode(hook, r.verdict))
  {
  }

  lemma ConcatShape(a: seq<Item>, b: seq<Item>)
    requires NoNextRule(a) && NoNextRule(b) && Closed(a) && Closed(b)
    ensures NoNextRule(a + b) && Closed(a + b)
  {
    if b != [] {
      assert (a + b)[|a + b| - 1] == b[|b| - 1];
    }
  }

  lemma ActionShape(hook: Hook, r: Rule)
    ensures NoNextRule(ActionCode(hook, r)) && Closed(ActionCode(hook, r))
  {
    hide SetMarkCode, LogCode, RuleCountCode, VerdictCode, NoNextRule, Closed;
    ActionClosed(r);
    PartShape(hook, r);
    ConcatShape(RuleCountCode(r), VerdictCode(hook, r.verdict));
    ConcatShape(LogCode(r), RuleCountCode(r) + VerdictCode(hook, r.verdict));
    ConcatShape(SetMarkCode(r), LogCode(r) + (RuleCountCode(r) + VerdictCode(hook, r.verdict)));
  }

  // ---- meaning of a chain ----

  predicate DecidedAs(hook: Hook, d: Decision, o: Outcome) {
    o.Done? && o.st.regs[0] == Num(ReturnCode(hook, d.verdict)) && WorldOf(o.st) == d.world
  }

  lemma ArgOkMarked(hook: Hook, env: Env, v: View, w: World, r: Rule)
    requires ArgOk(hook, w.arg) && (r.MarkIsSet() ==> !hook.Xdp?)
    ensures ArgOk(hook, Applied(env, v, w, r).arg)
  {
  }

  lemma ResolveClosed(code: seq<Item>)
    requires Closed(code)
    ensures Closed(Resolve(code))
  {
  }

  lemma {:induction false} RulesMeaning(env: Env, link: Link, hook: Hook, record: bool, log: bool, v: View,
                                        rules: seq<Rule>, policy: Verdict, policyKey: nat, st: State)
    requires InRules(env, link, hook, record, log, v, st) && policyKey < TWO31
    requires forall r :: r in rules ==> RuleFits(hook, record, log, r)
    ensures ValidView(env, v) && (forall r :: r in rules ==> RuleOk(r))
    ensures var code := RulesCode(hook, rules) + CountAndExit(policyKey, ReturnCode(hook, policy));
            DecidedAs(hook, Decide(env, v, rules, policy, policyKey, WorldOf(st)), Run(env, link, code, 0, st))
    decreases |rules|
  {
    hide Exec, Run, RuleCode, CountAndExit, Ready, Applied, LogReady, ArgOk, Bump, RuleMatches, RuleOk, MarkIn;
    hide ValidView, RulesCode, RuleOutcome;
    ReadyView(env, record, v, st);
    var tail := CountAndExit(policyKey, ReturnCode(hook, policy));
    RulesCodeUnfold(hook, rules, tail);
    if rules == [] {
      ReadyCounts(env, record, v, st);
      CountAndExitMeaning(env, link, policyKey, ReturnCode(hook, policy), st);
    } else {
      var r, rest := rules[0], rules[1..];
      assert r in rules && forall x :: x in rest ==> x in rules;
      var a, b := RuleCode(hook, r), RulesCode(hook, rest) + tail;
      RuleCodeClosed(hook, r);
      RunConcat(env, link, a, b, 0, st);
      RuleMeaning(env, link, hook, record, log, v, r, st);
      var o := Run(env, link, a, 0, st);
      RuleOutcomeCases(env, hook, v, r, st, o);
      if o.At? {
        ReadyByFrame(env, record, v, st, o.st);
        ArgOkMarked(hook, env, v, WorldOf(st), r);
        RulesMeaning(env, link, hook, record, log, v, rest, policy, policyKey, o.st);
      }
    }
  }

  lemma RulesCodeUnfold(hook: Hook, rules: seq<Rule>, tail: seq<Item>)
    requires forall r :: r in rules ==> RuleOk(r)
    ensures rules == [] ==> RulesCode(hook, rules) + tail == tail
    ensures rules != [] ==> rules[0] in rules && RulesCode(hook, rules) + tail ==
                            RuleCode(hook, rules[0]) + (RulesCode(hook, rules[1..]) + tail)
  {
    hide RuleCode, RuleOk;
  }

  lemma RuleOutcomeCases(env: Env, hook: Hook, v: View, r: Rule, st: State, o: Outcome)
    requires ValidView(env, v) && RuleOk(r) && RuleOutcome(env, hook, v, r, st, o)
    ensures var w := WorldOf(st);
            var hit := RuleMatches(env, MarkIn(w), v, r.matchers);
            && (hit && Terminal(r.verdict) ==> DecidedAs(hook, Decision(r.verdict, Applied(env, v, w, r)), o))
            && (!(hit && Terminal(r.verdict)) ==>
                  o.At? && o.k == 0 && o.st.frame == st.frame && o.st.regs[7..] == st.regs[7..]
                  && WorldOf(o.st) == if hit then Applied(env, v, w, r) else w)
  {
    hide RuleMatches, Applied, MarkIn, ValidView, RuleOk;
  }

  lemma ReadyCounts(env: Env, record: bool, v: View, st: State)
    requires Ready(env, record, v, st)
    ensures CanCount(st) && FrameNum(st, PKT_SIZE) == v.size
  {
  }

  lemma RuleCodeClosed(hook: Hook, r: Rule)
    requires RuleOk(r)
    ensures Closed(RuleCode(hook, r))
  {
    hide RuleBody;
    RuleShape(hook, r);
    ResolveClosed(RuleBody(hook, r));
  }

  lemma ChainRulesFit(c: Chain)
    requires ChainOk(c)
    ensures forall r :: r in c.rules ==> RuleFits(c.hook, c.flags.storeNexthdr, c.flags.log, r)
  {
    forall r | r in c.rules
      ensures RuleFits(c.hook, c.flags.storeNexthdr, c.flags.log, r)
    {
      var i :| 0 <= i < |c.rules| && c.rules[i] == r;
    }
  }

  /**
   The relocatable code of a chain, run on any packet, leaves with the reference decision:
   same return code, same mark, same counters, same log.
   */
  lemma ChainMeaning(env: Env, link: Link, c: Chain, st: State)
    requires ChainOk(c) && AtStart(st) && ArgOk(c.hook, st.arg)
    ensures DecidedAs(c.hook, Filter(c, env, WorldOf(st)), Run(env, link, ChainCode(c), 0, st))
  {
    hide Exec, Run, PrologueCode, RulesCode, CountAndExit, Ready, Parse, Decide, Bump, ArgOk, LogReady, PacketSize;
    var record, accept := c.flags.storeNexthdr, ReturnCode(c.hook, Accept);
    var pro := PrologueCode(c.hook, c.flags, ErrorKey(c), accept);
    var rest := RulesCode(c.hook, c.rules) + CountAndExit(PolicyKey(c), ReturnCode(c.hook, c.policy));
    PrologueClosed(c.hook, c.flags, ErrorKey(c), accept);
    RunConcat(env, link, pro, rest, 0, st);
    PrologueMeaning(env, link, c.hook, c.flags, ErrorKey(c), accept, st);
    if Parse(c.hook, record, env, st.arg).Parsed? {
      var v, s := Parse(c.hook, record, env, st.arg).v, Run(env, link, pro, 0, st).st;
      ChainRulesFit(c);
      RulesMeaning(env, link, c.hook, record, c.flags.log, v, c.rules, c.policy, PolicyKey(c), s);
    }
  }

  lemma PrologueClosed(hook: Hook, flags: Flags, err: nat, accept: nat)
    ensures Closed(PrologueCode(hook, flags, err, accept))
  {
    hide EntryCode, HeadCode, L3Code;
    var c, l4 := PrologueCode(hook, flags, err, accept), L4Code(err, accept);
    assert l4[|l4| - 1] == StxMem(DW, 10, 0, L4_HDR);
    assert c[|c| - 1] == l4[|l4| - 1];
  }
}
