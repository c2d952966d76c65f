/**
 From a chain to a loaded image: generate the code, append and link the stubs, then write
 the map descriptors. The finished image decides every packet as the chain does.
 */
module Build {
  import opened Bits
  import opened Packet
  import opened Bpf
  import opened Asm
  import opened Switch
  import opened Program
  import opened Chain
  import opened Reference
  import opened Matchers
  import opened Prologue
  import opened Compiler
  import opened Generator
  import opened Image
  import opened Stubs
  import P = Printer
  import Kernel

  // ---- which operands are symbolic ----

  /** Symbolic operands sit where the linker expects them, and every call is symbolic. */
  predicate Shaped1(x: Item) {
    && (x.reloc.StubCall? ==> x.insn.op.CallRel?)
    && (x.reloc.MapFd? ==> x.insn.op.LdMapFd? && !x.reloc.kind.PrinterMap?)
    && (x.insn.op.CallRel? ==> x.reloc.StubCall?)
  }

  predicate Shaped(code: seq<Item>) {
    forall x :: x in code ==> Shaped1(x) && !x.reloc.NextRule?
  }

  /** The same for code of a rule that is not complete yet. */
  predicate RuleShaped(code: seq<Item>) {
    forall x :: x in code ==> Shaped1(x) && (x.reloc.NextRule? ==> IsJump(x.insn.op))
  }

  lemma RuleShapedConcat(a: seq<Item>, b: seq<Item>)
    requires RuleShaped(a) && RuleShaped(b)
    ensures RuleShaped(a + b)
  {
    hide Shaped1;
  }

  lemma ShapedIsRuleShaped(code: seq<Item>)
    requires Shaped(code)
    ensures RuleShaped(code)
  {
    hide Shaped1;
  }

  lemma ShapedConcat(a: seq<Item>, b: seq<Item>)
    requires Shaped(a) && Shaped(b)
    ensures Shaped(a + b)
  {
    hide Shaped1;
  }

  lemma ShapedSkipIf(jump: Item, body: seq<Item>)
    requires Shaped(body) && IsJump(jump.insn.op) && jump.reloc.Fixed?
    ensures Shaped(SkipIf(jump, body))
  {
  }

  lemma {:induction false} ShapedTests(reg: Reg, cases: seq<Case>, ahead: nat)
    ensures Shaped(Tests(reg, cases, ahead))
    decreases |cases|
  {
    if cases != [] {
      ShapedTests(reg, cases[1..], ahead + |cases[0].body| + 1);
    }
  }

  lemma {:induction false} ShapedBodies(cases: seq<Case>, tail: nat)
    requires forall c :: c in cases ==> Shaped(c.body)
    ensures Shaped(Bodies(cases, tail))
    decreases |cases|
  {
    hide Shaped1;
    if cases != [] {
      assert cases[0] in cases;
      ShapedBodies(cases[1..], tail);
      JumpShaped(BodiesLen(cases[1..]) + tail);
    }
  }

  lemma JumpShaped(off: int)
    ensures Shaped1(Jump(off))
  {
  }

  lemma ShapedSwitch(reg: Reg, cases: seq<Case>, default: Default)
    requires (forall c :: c in cases ==> Shaped(c.body)) && Shaped(default.Body())
    ensures Shaped(SwitchCode(reg, cases, default))
  {
    hide Shaped1, Tests, Bodies;
    ShapedTests(reg, cases, default.Jumps());
    ShapedBodies(cases, |default.Body()|);
    JumpShaped(BodiesLen(cases));
  }

  lemma ShapedCountAndExit(key: nat, verdict: int)
    ensures Shaped(CountAndExit(key, verdict)) && Shaped(CountCode(key)) && Shaped(ExitCode(verdict))
  {
    assert CountAndExit(key, verdict) == CountCode(key) + ExitCode(verdict);
  }

  lemma ShapedSlice(err: nat, accept: nat)
    ensures Shaped(SliceCode(err, accept)) && Shaped(DynptrCode(err, accept))
  {
    hide CountAndExit;
    ShapedCountAndExit(err, accept);
    ShapedSkipIf(JumpImm(Jne, 0, 0, 0), CountAndExit(err, accept));
    ShapedSkipIf(JumpImm(Jeq, 0, 0, 0), CountAndExit(err, accept));
    ShapedConcat([KernelCall(DynptrSlice)], SkipIf(JumpImm(Jne, 0, 0, 0), CountAndExit(err, accept)));
    ShapedConcat([Mov64Imm(2, 0), Mov64Reg(3, 10), AluImm(Add, 3, DYNPTR), KernelCall(DynptrFrom)],
                 SkipIf(JumpImm(Jeq, 0, 0, 0), CountAndExit(err, accept)));
  }

  lemma ShapedIp(record: bool)
    ensures Shaped(V4Code()) && Shaped(V6Code(record)) && Shaped(IpCode(record))
  {
    assert Shaped(V4Code()) && Shaped(V6Code(record));
    hide V4Code, V6Code;
    ShapedSkipIf(JumpImm(Jne, 7, IP4, 0), V4Code());
    ShapedSkipIf(JumpImm(Jne, 7, IP6, 0), V6Code(record));
    ShapedConcat(SkipIf(JumpImm(Jne, 7, IP4, 0), V4Code()), SkipIf(JumpImm(Jne, 7, IP6, 0), V6Code(record)));
  }

  lemma ShapedL3(err: nat, accept: nat, record: bool)
    ensures Shaped(L3Code(err, accept, record))
  {
    hide SliceCode, IpCode, SwitchCode, Shaped1;
    ShapedSlice(err, accept);
    ShapedIp(record);
    ShapedArgs();
    ShapedCases();
    ShapedConcat(SliceArgs(L3_SIZE, L3_OFFSET, L2_BUF), SliceCode(err, accept));
    ShapedConcat(SliceArgs(L3_SIZE, L3_OFFSET, L2_BUF) + SliceCode(err, accept), [StxMem(DW, 10, 0, L3_HDR)]);
    ShapedConcat(SliceArgs(L3_SIZE, L3_OFFSET, L2_BUF) + SliceCode(err, accept) + [StxMem(DW, 10, 0, L3_HDR)],
                 IpCode(record));
    ShapedSkipIf(JumpImm(Jeq, 7, 0, 0), L3Body(err, accept, record));
    ShapedSwitch(7, L3_CASES, NO_L3);
    ShapedConcat(SwitchCode(7, L3_CASES, NO_L3), SkipIf(JumpImm(Jeq, 7, 0, 0), L3Body(err, accept, record)));
  }

  lemma ShapedArgs()
    ensures Shaped(SliceArgs(L3_SIZE, L3_OFFSET, L2_BUF)) && Shaped(SliceArgs(L4_SIZE, L4_OFFSET, L4_BUF))
    ensures Shaped([StxMem(DW, 10, 0, L3_HDR)]) && Shaped([StxMem(DW, 10, 0, L4_HDR)])
  {
  }

  lemma ShapedMove(d: Reg, imm: int)
    ensures Shaped([Mov64Imm(d, imm)])
  {
  }

  lemma ShapedCases()
    ensures (forall c :: c in L3_CASES ==> Shaped(c.body)) && Shaped(NO_L3.Body())
    ensures (forall c :: c in L4_CASES ==> Shaped(c.body)) && Shaped(NO_L4.Body())
    ensures (forall c :: c in FAMILY_CASES ==> Shaped(c.body)) && Shaped(NO_FAMILY.Body())
  {
    hide Shaped;
    ShapedMove(4, 20);
    ShapedMove(4, 40);
    ShapedMove(4, 8);
    ShapedMove(7, IP4);
    ShapedMove(7, IP6);
    ShapedMove(7, 0);
    ShapedMove(8, 0);
  }

  lemma ShapedL4(err: nat, accept: nat)
    ensures Shaped(L4Code(err, accept))
  {
    hide SliceCode, SwitchCode, Shaped1;
    ShapedSlice(err, accept);
    ShapedArgs();
    ShapedCases();
    ShapedConcat(SliceArgs(L4_SIZE, L4_OFFSET, L4_BUF), SliceCode(err, accept));
    ShapedConcat(SliceArgs(L4_SIZE, L4_OFFSET, L4_BUF) + SliceCode(err, accept), [StxMem(DW, 10, 0, L4_HDR)]);
    ShapedSkipIf(JumpImm(Jeq, 8, 0, 0), L4Body(err, accept));
    ShapedSwitch(8, L4_CASES, NO_L4);
    ShapedConcat(SwitchCode(8, L4_CASES, NO_L4), SkipIf(JumpImm(Jeq, 8, 0, 0), L4Body(err, accept)));
  }

  lemma ShapedEntry(flags: Flags)
    ensures Shaped(EntryCode(flags))
  {
    var a := [StxMem(DW, 10, 1, ARG), Mov64Imm(7, 0), Mov64Imm(8, 0)];
    var b := if flags.log then [LoadMap(2, LogMap), Second(0), StxMem(DW, 10, 2, LOG_MAP)] else [];
    var c := if flags.storeNexthdr then [StxMem(DW, 10, 7, IPV6_EH)] else [];
    ShapedConcat(a, b);
    ShapedConcat(a + b, c);
  }

  lemma ShapedMeta(hook: Hook)
    ensures Shaped(MetaCode(hook))
  {
  }

  lemma ShapedL2()
    ensures Shaped(L2Args()) && Shaped([LdxMem(W, 2, 1, SKB_FAMILY)]) && Shaped([StMem(W, 10, L3_OFFSET, 0)])
    ensures Shaped([StxMem(DW, 10, 0, L2_HDR), LdxMem(H, 7, 0, 12), StMem(W, 10, L3_OFFSET, ETH_HLEN)])
  {
  }

  lemma ShapedHead(hook: Hook, flags: Flags, err: nat, accept: nat)
    ensures Shaped(HeadCode(hook, err, accept)) && Shaped(EntryCode(flags))
  {
    var tail := [StxMem(DW, 10, 0, L2_HDR), LdxMem(H, 7, 0, 12), StMem(W, 10, L3_OFFSET, ETH_HLEN)];
    ShapedEntry(flags);
    ShapedMeta(hook);
    ShapedL2();
    hide SliceCode, SwitchCode, DynptrCode, Shaped1, MetaCode, EntryCode, L2Args;
    ShapedSlice(err, accept);
    ShapedCases();
    ShapedSwitch(2, FAMILY_CASES, NO_FAMILY);
    if IsCgroup(hook) {
      ShapedConcat([LdxMem(W, 2, 1, SKB_FAMILY)], SwitchCode(2, FAMILY_CASES, NO_FAMILY));
      ShapedConcat([LdxMem(W, 2, 1, SKB_FAMILY)] + SwitchCode(2, FAMILY_CASES, NO_FAMILY), [StMem(W, 10, L3_OFFSET, 0)]);
      ShapedConcat(FamilyCode(), DynptrCode(err, accept));
      ShapedConcat(MetaCode(hook), FamilyCode() + DynptrCode(err, accept));
    } else {
      ShapedConcat(L2Args(), SliceCode(err, accept));
      ShapedConcat(L2Args() + SliceCode(err, accept), tail);
      ShapedConcat(DynptrCode(err, accept), L2Code(err, accept));
      ShapedConcat(MetaCode(hook), DynptrCode(err, accept) + L2Code(err, accept));
    }
  }

  lemma ShapedPrologue(hook: Hook, flags: Flags, err: nat, accept: nat)
    ensures Shaped(PrologueCode(hook, flags, err, accept))
  {
    hide EntryCode, HeadCode, L3Code, L4Code, Shaped1;
    ShapedHead(hook, flags, err, accept);
    ShapedL3(err, accept, flags.storeNexthdr);
    ShapedL4(err, accept);
    var layers := L3Code(err, accept, flags.storeNexthdr) + L4Code(err, accept);
    ShapedConcat(L3Code(err, accept, flags.storeNexthdr), L4Code(err, accept));
    ShapedConcat(HeadCode(hook, err, accept), layers);
    ShapedConcat(EntryCode(flags), HeadCode(hook, err, accept) + layers);
  }

  lemma ShapedMatcher(m: Matcher)
    requires WellFormed(m)
    ensures RuleShaped(MatcherCode(m))
  {
    hide SwitchCode, MaskWord, NetWord, U32, PortCode;
    if m.kind == MetaSport || m.kind == MetaDport {
      ShapedPort(m);
    } else if m.kind in {Ip4Saddr, Ip4Daddr, Ip4Snet, Ip4Dnet, Ip4Proto} {
      ShapedIp4(m);
    } else {
      hide AddrCode, NetCode, Ip4ProtoCode;
    }
  }

  lemma ShapedIp4(m: Matcher)
    requires WellFormed(m) && m.kind in {Ip4Saddr, Ip4Daddr, Ip4Snet, Ip4Dnet, Ip4Proto}
    ensures RuleShaped(MatcherCode(m))
  {
    hide MaskWord, NetWord, U32, PortCode;
    assert RuleShaped(Ip4Guard());
    var test := if m.kind == Ip4Proto then Ip4ProtoCode(m)
                else if m.kind == Ip4Saddr || m.kind == Ip4Daddr then AddrCode(m)
                else NetCode(m);
    assert RuleShaped(test);
    RuleShapedConcat(Ip4Guard(), test);
  }

  lemma ShapedPort(m: Matcher)
    requires WellFormed(m) && (m.kind == MetaSport || m.kind == MetaDport)
    ensures RuleShaped(PortCode(m))
  {
    var test := [NextRuleImm(Jeq, 1, 0)] + PortTestCode(m);
    assert RuleShaped(test) && Shaped([LdxMem(DW, 6, 10, L4_HDR)]);
    assert (forall c :: c in PortCases(m.kind) ==> Shaped(c.body)) && Shaped(NO_PORT.Body());
    hide SwitchCode, PortTestCode, Shaped1;
    ShapedSwitch(8, PortCases(m.kind), NO_PORT);
    ShapedConcat([LdxMem(DW, 6, 10, L4_HDR)], SwitchCode(8, PortCases(m.kind), NO_PORT));
    ShapedIsRuleShaped([LdxMem(DW, 6, 10, L4_HDR)] + SwitchCode(8, PortCases(m.kind), NO_PORT));
    RuleShapedConcat([LdxMem(DW, 6, 10, L4_HDR)] + SwitchCode(8, PortCases(m.kind), NO_PORT), test);
  }

  lemma {:induction false} ShapedMatchers(ms: seq<Matcher>)
    requires forall m :: m in ms ==> WellFormed(m)
    ensures RuleShaped(MatchersCode(ms))
    decreases |ms|
  {
    hide MatcherCode, WellFormed, Shaped1;
    if ms != [] {
      assert ms[0] in ms;
      ShapedMatcher(ms[0]);
      ShapedMatchers(ms[1..]);
      RuleShapedConcat(MatcherCode(ms[0]), MatchersCode(ms[1..]));
    }
  }

  lemma ShapedParts(hook: Hook, r: Rule)
    ensures Shaped(SetMarkCode(r)) && Shaped(LogCode(r)) && Shaped(RuleCountCode(r))
    ensures Shaped(VerdictCode(hook, r.verdict))
  {
  }

  lemma ShapedAction(hook: Hook, r: Rule)
    ensures Shaped(ActionCode(hook, r))
  {
    ShapedParts(hook, r);
    hide SetMarkCode, LogCode, RuleCountCode, VerdictCode, Shaped1;
    ShapedConcat(RuleCountCode(r), VerdictCode(hook, r.verdict));
    ShapedConcat(LogCode(r), RuleCountCode(r) + VerdictCode(hook, r.verdict));
    ShapedConcat(SetMarkCode(r), LogCode(r) + (RuleCountCode(r) + VerdictCode(hook, r.verdict)));
  }

  lemma ShapedResolve(code: seq<Item>)
    requires RuleShaped(code)
    ensures Shaped(Resolve(code))
  {
    forall x | x in Resolve(code)
      ensures Shaped1(x) && !x.reloc.NextRule?
    {
      var i :| 0 <= i < |code| && Resolve(code)[i] == x;
      assert code[i] in code;
    }
  }

  lemma {:induction false} ShapedRules(hook: Hook, rules: seq<Rule>)
    requires forall r :: r in rules ==> RuleOk(r)
    ensures Shaped(RulesCode(hook, rules))
    decreases |rules|
  {
    hide MatchersCode, ActionCode, WellFormed, Shaped1, Resolve;
    if rules != [] {
      var r := rules[0];
      assert r in rules;
      ShapedMatchers(r.matchers);
      ShapedAction(hook, r);
      ShapedIsRuleShaped(ActionCode(hook, r));
      RuleShapedConcat(MatchersCode(r.matchers), ActionCode(hook, r));
      ShapedResolve(RuleBody(hook, r));
      ShapedRules(hook, rules[1..]);
      ShapedConcat(RuleCode(hook, r), RulesCode(hook, rules[1..]));
    }
  }

  lemma ShapedChain(c: Chain)
    requires ChainOk(c)
    ensures Shaped(ChainCode(c)) && Closed(ChainCode(c))
  {
    hide PrologueCode, RulesCode, CountAndExit, Shaped1, WellFormed;
    var exit := CountAndExit(PolicyKey(c), ReturnCode(c.hook, c.policy));
    ShapedPrologue(c.hook, c.flags, ErrorKey(c), ReturnCode(c.hook, Accept));
    ShapedRules(c.hook, c.rules);
    ShapedCountAndExit(PolicyKey(c), ReturnCode(c.hook, c.policy));
    ShapedConcat(RulesCode(c.hook, c.rules), exit);
    ShapedConcat(PrologueCode(c.hook, c.flags, ErrorKey(c), ReturnCode(c.hook, Accept)),
                 RulesCode(c.hook, c.rules) + exit);
    ExitLast(PolicyKey(c), ReturnCode(c.hook, c.policy));
    assert ChainCode(c)[|ChainCode(c)| - 1] == exit[|exit| - 1];
  }

  lemma ExitLast(key: nat, verdict: int)
    ensures var e := CountAndExit(key, verdict); |e| == 8 && e[7] == ExitInsn()
  {
  }

  // ---- generating ----

  predicate Generable(c: Chain) {
    ChainOk(c) && forall r :: r in c.rules ==> RuleFitsJumps(c.hook, r)
  }

  method GenRules(p: Program, hook: Hook, rules: seq<Rule>, link: Link) returns (ok: bool)
    requires p.Valid() && NoNextRule(p.code)
    requires forall r :: r in rules ==> RuleFitsJumps(hook, r) && RuleOk(r) && (r.MarkIsSet() ==> !hook.Xdp?)
    requires forall r :: r in rules ==> MarksReadable(hook, r)
    modifies p
    ensures p.Valid() && p.layout == old(p.layout)
    ensures ok == (forall r :: r in rules ==> RuleKnown(r))
    ensures ok ==> p.code == old(p.code) + RulesCode(hook, rules) && NoNextRule(p.code)
  {
    hide Tracks, Bare, AllBlank, RuleCode, RuleOk, RuleKnown, NoNextRule, RulesCode, RuleFitsJumps, MarksReadable, NullAt;
    NoRulesNoCode(hook);
    assert rules[..0] == [];
    for i := 0 to |rules|
      invariant p.Valid() && p.layout == old(p.layout) && NoNextRule(p.code)
      invariant forall j :: 0 <= j < i ==> RuleKnown(rules[j])
      invariant forall r :: r in rules[..i] ==> RuleOk(r)
      invariant p.code == old(p.code) + RulesCode(hook, rules[..i])
    {
      assert rules[i] in rules;
      var e := GenRule(p, hook, rules[i], link);
      if !e.Emitted? {
        return false;
      }
      RulesCodeAppend(hook, rules[..i], rules[i]);
      assert rules[..i + 1] == rules[..i] + [rules[i]];
    }
    assert rules[..|rules|] == rules;
    ok := true;
  }

  lemma GenerableRules(c: Chain)
    requires Generable(c)
    ensures ChainOk(c)
    ensures forall r :: r in c.rules ==> RuleFitsJumps(c.hook, r) && RuleOk(r) && (r.MarkIsSet() ==> !c.hook.Xdp?)
    ensures forall r :: r in c.rules ==> MarksReadable(c.hook, r)
  {
    ChainRulesFit(c);
    forall r | r in c.rules
      ensures MarksReadable(c.hook, r)
    {
      assert RuleFits(c.hook, c.flags.storeNexthdr, c.flags.log, r);
    }
  }

  lemma NoRulesNoCode(hook: Hook)
    ensures RulesCode(hook, []) == []
  {
  }

  lemma {:induction false} RulesCodeAppend(hook: Hook, rules: seq<Rule>, r: Rule)
    requires (forall x :: x in rules ==> RuleOk(x)) && RuleOk(r)
    ensures forall x :: x in rules + [r] ==> RuleOk(x)
    ensures RulesCode(hook, rules + [r]) == RulesCode(hook, rules) + RuleCode(hook, r)
    decreases |rules|
  {
    hide RuleCode, RuleOk;
    if rules == [] {
      assert [r][1..] == [];
    } else {
      assert rules[0] in rules;
      assert (rules + [r])[1..] == rules[1..] + [r];
      RulesCodeAppend(hook, rules[1..], r);
    }
  }

  /** bf_program_generate(), up to the stubs. */
  method GenChain(p: Program, c: Chain, link: Link) returns (ok: bool)
    requires p.Valid() && p.code == [] && p.layout == map[] && Generable(c)
    modifies p
    ensures p.Valid() && p.layout == map[]
    ensures ok == (forall r :: r in c.rules ==> RuleKnown(r))
    ensures ok ==> p.code == ChainCode(c)
  {
    hide Tracks, Bare, AllBlank, PrologueCode, RulesCode, CountCode, ExitCode, RuleKnown, RuleOk, MarksReadable;
    var err, accept := ErrorKey(c), ReturnCode(c.hook, Accept);
    GenPrologue(p, c.hook, c.flags, err, accept);
    ShapedPrologue(c.hook, c.flags, err, accept);
    GenerableRules(c);
    ok := GenRules(p, c.hook, c.rules, link);
    if ok {
      CountBlank(PolicyKey(c), ReturnCode(c.hook, c.policy));
      p.EmitAll(CountCode(PolicyKey(c)));
      p.EmitAll(ExitCode(ReturnCode(c.hook, c.policy)));
    }
  }

  lemma CountBlank(key: nat, verdict: int)
    ensures AllBlank(CountCode(key)) && AllBlank(ExitCode(verdict))
  {
  }

  // ---- linking ----

  /** Which fixups a code still has to go through before it is linked up to position n. */
  predicate LinkedFor(link: Link, layout: Layout, orig: seq<Item>, code: seq<Item>, stubs: bool, kinds: set<MapKind>) {
    && |orig| <= |code|
    && forall q :: 0 <= q < |orig| ==>
         code[q] == if (stubs && orig[q].reloc.StubCall?) || (orig[q].reloc.MapFd? && orig[q].reloc.kind in kinds)
                    then Item(LinkItem(link, layout, orig[q], q), Fixed) else orig[q]
  }

  lemma LinkedStart(link: Link, layout: Layout, orig: seq<Item>, code: seq<Item>)
    requires orig <= code
    ensures LinkedFor(link, layout, orig, code, false, {})
  {
  }

  lemma LinkedStubs(link: Link, layout: Layout, orig: seq<Item>, code: seq<Item>)
    requires LinkedFor(link, layout, orig, code, false, {}) && Shaped(orig)
    requires Reachable(link, layout, code, ToStub)
    ensures LinkedFor(link, layout, orig, FixedAll(link, layout, ToStub, code), true, {})
  {
    hide Shaped1;
    var fixed := FixedAll(link, layout, ToStub, code);
    forall q | 0 <= q < |orig|
      ensures fixed[q] == if orig[q].reloc.StubCall? then Item(LinkItem(link, layout, orig[q], q), Fixed) else orig[q]
    {
      assert code[q] == orig[q] && orig[q] in orig;
      assert fixed[q] == Fixed1(link, layout, |code|, ToStub, code[q], q);
    }
  }

  lemma LinkedMap(link: Link, layout: Layout, orig: seq<Item>, code: seq<Item>, kinds: set<MapKind>, kind: MapKind)
    requires LinkedFor(link, layout, orig, code, true, kinds)
    ensures LinkedFor(link, layout, orig, FixedAll(link, layout, ToMap(kind), code), true, kinds + {kind})
    ensures Reachable(link, layout, code, ToMap(kind))
  {
    var fixed := FixedAll(link, layout, ToMap(kind), code);
    forall q | 0 <= q < |orig|
      ensures fixed[q] == if orig[q].reloc.StubCall? || (orig[q].reloc.MapFd? && orig[q].reloc.kind in kinds + {kind})
                          then Item(LinkItem(link, layout, orig[q], q), Fixed) else orig[q]
    {
      assert fixed[q] == Fixed1(link, layout, |code|, ToMap(kind), code[q], q);
    }
  }

  /** A program all of whose fixups are applied contains the linked form of its code. */
  lemma LinkedContains(link: Link, layout: Layout, orig: seq<Item>, code: seq<Item>)
    requires LinkedFor(link, layout, orig, code, true, {CountersMap, PrinterMap, LogMap}) && Shaped(orig)
    requires forall q :: 0 <= q < |orig| && orig[q].reloc.StubCall? ==> orig[q].reloc.stub in layout
    ensures Contains(link, layout, orig, Bare(code))
  {
    forall q | 0 <= q < |orig|
      ensures LinkedItem(link, layout, orig[q], Bare(code)[q], q)
    {
      assert orig[q] in orig;
    }
  }

  /** Behind the program only string loads were symbolic. */
  predicate OnlyStrings(code: seq<Item>, n: nat) {
    forall q :: n <= q < |code| ==> code[q].reloc.Fixed? || code[q].reloc == MapFd(PrinterMap)
  }

  lemma LaidOutStrings(code: seq<Item>, n0: nat, layout: Layout, stubs: map<Stub, StubBody>)
    requires LaidOut(code, n0, layout, stubs)
    ensures OnlyStrings(code, n0)
  {
    forall q | n0 <= q < |code|
      ensures code[q].reloc.Fixed? || code[q].reloc == MapFd(PrinterMap)
    {
      assert InStub(layout, stubs, q);
      var t :| t in layout && t in stubs && layout[t] <= q < layout[t] + |stubs[t].insns|;
      assert StubHere(code, n0, layout[t], stubs[t]);
    }
  }

  lemma StringsOnly(link: Link, layout: Layout, t: FixupType, code: seq<Item>, n: nat)
    requires OnlyStrings(code, n)
    ensures OnlyStrings(FixedAll(link, layout, t, code), n)
  {
  }

  lemma StringsDone(link: Link, layout: Layout, code: seq<Item>, n: nat)
    requires OnlyStrings(code, n)
    ensures forall q :: n <= q < |code| ==> FixedAll(link, layout, ToMap(PrinterMap), code)[q].reloc.Fixed?
  {
  }

  /** No fixup is left when every field is written. */
  lemma NoFixupsLeft(code: seq<Item>, fixups: seq<Fixup>)
    requires Tracks(code, fixups) && forall q :: 0 <= q < |code| ==> code[q].reloc.Fixed?
    ensures fixups == []
  {
    if |fixups| > 0 {
      hide Tracks;
      TrackedIsPending(code, fixups, 0);
    }
  }

  lemma TrackedIsPending(code: seq<Item>, fixups: seq<Fixup>, j: nat)
    requires Tracks(code, fixups) && j < |fixups|
    ensures fixups[j].insn < |code| && !code[fixups[j].insn].reloc.Fixed?
  {
  }

  /** What the passes have made of the stubs: nothing, or the printer map's descriptor in string loads. */
  predicate Behind(code0: seq<Item>, code: seq<Item>, n: nat, done: bool, fd: int) {
    |code| == |code0| && forall q :: n <= q < |code| ==>
      code[q] == if done && code0[q].reloc == MapFd(PrinterMap) then Item(code0[q].insn.(imm := fd), Fixed) else code0[q]
  }

  lemma BehindPass(link: Link, layout: Layout, t: FixupType, code0: seq<Item>, code: seq<Item>, n: nat, done: bool)
    requires Behind(code0, code, n, done, link.printer) && OnlyStrings(code0, n)
    ensures Behind(code0, FixedAll(link, layout, t, code), n, done || t == ToMap(PrinterMap), link.printer)
  {
    var fixed := FixedAll(link, layout, t, code);
    forall q | n <= q < |fixed|
      ensures fixed[q] == if (done || t == ToMap(PrinterMap)) && code0[q].reloc == MapFd(PrinterMap)
                          then Item(code0[q].insn.(imm := link.printer), Fixed) else code0[q]
    {
      assert fixed[q] == Fixed1(link, layout, |code|, t, code[q], q);
    }
  }

  lemma BehindStart(code: seq<Item>, n: nat, fd: int)
    ensures Behind(code, code, n, false, fd)
  {
  }

  /**
   A stub in a finished image: its own instructions, and loads of its strings from the printer map
   at the offsets where the printer has them.
   */
  predicate StubLoaded(img: seq<Insn>, at: nat, b: StubBody, msgs: seq<P.Msg>, fd: int) {
    && at + |b.insns| <= |img|
    && (forall i :: 0 <= i < |b.insns| && Untouched(b, |b.strs|, i) ==> img[at + i] == b.insns[i])
    && (forall k :: 0 <= k < |b.strs| ==> StringLoaded(img, at + b.strs[k].insn, b.strs[k].str, msgs, fd))
  }

  predicate StringLoaded(img: seq<Insn>, i: nat, str: string, msgs: seq<P.Msg>, fd: int) {
    && i + 1 < |img| && img[i] == Insn(LdMapValue, 1, 0, 0, fd)
    && img[i + 1] == Insn(SecondSlot, 0, 0, 0, img[i + 1].imm) && KnownAt(msgs, str, img[i + 1].imm)
  }

  predicate StubsLoaded(img: seq<Insn>, layout: Layout, stubs: map<Stub, StubBody>, msgs: seq<P.Msg>, fd: int) {
    forall s :: s in layout ==> s in stubs && StubLoaded(img, layout[s], stubs[s], msgs, fd)
  }

  lemma StubsAreLoaded(code0: seq<Item>, code: seq<Item>, n: nat, layout: Layout, stubs: map<Stub, StubBody>, msgs: seq<P.Msg>, fd: int)
    requires LaidOut(code0, n, layout, stubs) && AllStrings(code0, layout, stubs, msgs) && Behind(code0, code, n, true, fd)
    ensures StubsLoaded(Bare(code), layout, stubs, msgs, fd)
  {
    forall s | s in layout
      ensures s in stubs && StubLoaded(Bare(code), layout[s], stubs[s], msgs, fd)
    {
      assert StubHere(code0, n, layout[s], stubs[s]);
      assert Strings(code0, layout[s], stubs[s], |stubs[s].strs|, msgs);
      hide LaidOut, AllStrings;
      StubIsLoaded(code0, code, n, layout[s], stubs[s], msgs, fd);
    }
  }

  lemma StubIsLoaded(code0: seq<Item>, code: seq<Item>, n: nat, at: nat, b: StubBody, msgs: seq<P.Msg>, fd: int)
    requires StubOk(b) && StubHere(code0, n, at, b) && Strings(code0, at, b, |b.strs|, msgs) && Behind(code0, code, n, true, fd)
    ensures StubLoaded(Bare(code), at, b, msgs, fd)
  {
    forall i | 0 <= i < |b.insns| && Untouched(b, |b.strs|, i)
      ensures Bare(code)[at + i] == b.insns[i]
    {
      assert code0[at + i] == Item(b.insns[i], Fixed);
    }
    forall k | 0 <= k < |b.strs|
      ensures StringLoaded(Bare(code), at + b.strs[k].insn, b.strs[k].str, msgs, fd)
    {
      var i := at + b.strs[k].insn;
      assert StringAt(code0, i, b.strs[k].str, msgs);
      assert code[i] == Item(LOAD_STR.insn.(imm := fd), Fixed) && code[i + 1] == code0[i + 1];
    }
  }

  /** Every call of the program leads to the first instruction of its stub. */
  lemma CallsReachStubs(c: Chain, link: Link, layout: Layout, img: seq<Insn>, i: nat)
    requires ChainOk(c) && Contains(link, layout, ChainCode(c), img) && i < |ChainCode(c)| && ChainCode(c)[i].reloc.StubCall?
    ensures img[i].op.CallRel? && Calls(layout, ChainCode(c)[i].reloc.stub, i + 1 + img[i].imm)
  {
    hide ChainCode;
    assert LinkedItem(link, layout, ChainCode(c)[i], img[i], i);
  }

  /** The map passes of bf_program_load(): counters, printer strings, log. */
  method LoadMaps(p: Program, link: Link, ghost orig: seq<Item>, ghost code0: seq<Item>)
    requires Behind(code0, p.code, |orig|, false, link.printer) && OnlyStrings(code0, |orig|)
    requires p.Valid() && Shaped(orig) && LinkedFor(link, p.layout, orig, p.code, true, {}) && OnlyStrings(p.code, |orig|)
    requires forall q :: 0 <= q < |orig| && orig[q].reloc.StubCall? ==> orig[q].reloc.stub in p.layout
    modifies p
    ensures p.Valid() && p.layout == old(p.layout) && |p.code| == |old(p.code)|
    ensures Contains(link, p.layout, orig, p.img) && p.fixups == []
    ensures Behind(code0, p.code, |orig|, true, link.printer)
  {
    hide Tracks, AllBlank, Shaped, LinkedFor, Reachable, FixedAll, Behind, OnlyStrings;
    BehindPass(link, p.layout, ToMap(CountersMap), code0, p.code, |orig|, false);
    LinkedMap(link, p.layout, orig, p.code, {}, CountersMap);
    StringsOnly(link, p.layout, ToMap(CountersMap), p.code, |orig|);
    var ok := p.ApplyFixups(ToMap(CountersMap), link);
    LinkedMap(link, p.layout, orig, p.code, {} + {CountersMap}, PrinterMap);
    StringsDone(link, p.layout, p.code, |orig|);
    BehindPass(link, p.layout, ToMap(PrinterMap), code0, p.code, |orig|, false);
    ok := p.ApplyFixups(ToMap(PrinterMap), link);
    LinkedMap(link, p.layout, orig, p.code, {} + {CountersMap} + {PrinterMap}, LogMap);
    ghost var before := p.code;
    BehindPass(link, p.layout, ToMap(LogMap), code0, p.code, |orig|, true);
    ok := p.ApplyFixups(ToMap(LogMap), link);
    assert {} + {CountersMap} + {PrinterMap} + {LogMap} == {CountersMap, PrinterMap, LogMap};
    LinkedContains(link, p.layout, orig, p.code);
    AllWritten(link, p.layout, orig, before);
    NoFixupsLeft(p.code, p.fixups);
  }

  lemma AllWritten(link: Link, layout: Layout, orig: seq<Item>, code: seq<Item>)
    requires Shaped(orig)
    requires LinkedFor(link, layout, orig, FixedAll(link, layout, ToMap(LogMap), code), true, {CountersMap, PrinterMap, LogMap})
    requires forall q :: |orig| <= q < |code| ==> code[q].reloc.Fixed?
    ensures var done := FixedAll(link, layout, ToMap(LogMap), code);
            forall q :: 0 <= q < |done| ==> done[q].reloc.Fixed?
  {
    var done := FixedAll(link, layout, ToMap(LogMap), code);
    forall q | 0 <= q < |done|
      ensures done[q].reloc.Fixed?
    {
      if q < |orig| {
        assert orig[q] in orig;
        match orig[q].reloc
        case MapFd(kind) => match kind { case _ => }
        case _ =>
      } else {
        assert done[q] == Fixed1(link, layout, |code|, ToMap(LogMap), code[q], q);
      }
    }
  }

  /** The image decides every packet as the chain does, in at most one step per instruction. */
  ghost predicate Implements(c: Chain, link: Link, layout: Layout, img: seq<Insn>)
    requires ChainOk(c)
  {
    forall env, st :: AtStart(st) && ArgOk(c.hook, st.arg) ==> Correct(c, link, layout, img, env, st)
  }

  predicate Correct(c: Chain, link: Link, layout: Layout, img: seq<Insn>, env: Env, st: State)
    requires ChainOk(c) && ArgOk(c.hook, st.arg)
  {
    var d, f := Filter(c, env, WorldOf(st)), RunImage(env, link, layout, img, 0, st, |img|);
    f.Finished? && f.st.regs[0] == Num(ReturnCode(c.hook, d.verdict)) && WorldOf(f.st) == d.world
  }

  /** The kernel passes exactly the packets the chain accepts and drops exactly those it drops. */
  ghost predicate Enforces(c: Chain, link: Link, layout: Layout, img: seq<Insn>)
    requires ChainOk(c)
  {
    forall env, st :: AtStart(st) && ArgOk(c.hook, st.arg) ==> Enforced(c, link, layout, img, env, st)
  }

  predicate Enforced(c: Chain, link: Link, layout: Layout, img: seq<Insn>, env: Env, st: State)
    requires ChainOk(c) && ArgOk(c.hook, st.arg)
  {
    var verdict, f := Filter(c, env, WorldOf(st)).verdict, RunImage(env, link, layout, img, 0, st, |img|);
    f.Finished? && f.st.regs[0].Num? &&
    var fate := Kernel.FateOf(c.hook, f.st.regs[0].n);
    && (fate == Kernel.Passed <==> verdict == Accept) && (fate == Kernel.Dropped <==> verdict == Drop)
  }

  lemma ImplementsEnforces(c: Chain, link: Link, layout: Layout, img: seq<Insn>)
    requires ChainOk(c) && Implements(c, link, layout, img)
    ensures Enforces(c, link, layout, img)
  {
    forall env, st | AtStart(st) && ArgOk(c.hook, st.arg)
      ensures Enforced(c, link, layout, img, env, st)
    {
      hide RunImage, Filter, AtStart, ArgOk, ChainOk;
      assert Correct(c, link, layout, img, env, st);
      FilterIsTerminal(c, env, WorldOf(st));
    }
  }

  lemma FilterIsTerminal(c: Chain, env: Env, w: World)
    requires ChainOk(c) && ArgOk(c.hook, w.arg)
    ensures Filter(c, env, w).verdict == Accept || Filter(c, env, w).verdict == Drop
  {
    hide Parse, ArgOk, Decide, RuleOk;
    if Parse(c.hook, c.flags.storeNexthdr, env, w.arg).Parsed? {
      ParseIsValid(c.hook, c.flags.storeNexthdr, env, w.arg);
      DecideIsTerminal(env, Parse(c.hook, c.flags.storeNexthdr, env, w.arg).v, c.rules, c.policy, PolicyKey(c), w);
    }
  }

  lemma {:induction false} DecideIsTerminal(env: Env, v: View, rules: seq<Rule>, policy: Verdict, policyKey: nat, w: World)
    requires ValidView(env, v) && (forall r :: r in rules ==> RuleOk(r)) && policy != Continue
    ensures Decide(env, v, rules, policy, policyKey, w).verdict != Continue
    decreases |rules|
  {
    hide ValidView, RuleOk, RuleMatches, Applied;
    if rules != [] {
      assert rules[0] in rules;
      DecideIsTerminal(env, v, rules[1..], policy, policyKey, w);
      DecideIsTerminal(env, v, rules[1..], policy, policyKey, Applied(env, v, w, rules[0]));
    }
  }

  lemma ContainsImplements(c: Chain, link: Link, layout: Layout, img: seq<Insn>)
    requires ChainOk(c) && Contains(link, layout, ChainCode(c), img) && Distinct(layout)
    ensures Implements(c, link, layout, img)
  {
    forall env, st | AtStart(st) && ArgOk(c.hook, st.arg)
      ensures Correct(c, link, layout, img, env, st)
    {
      hide Run, RunImage, ChainCode, Filter, AtStart, ArgOk, Contains, Distinct;
      ShapedChain(c);
      ChainMeaning(env, link, c, st);
      ContainsLen(link, layout, ChainCode(c), img);
      LinkedRun(env, link, layout, ChainCode(c), img, 0, st, |img|);
    }
  }

  /**
   The whole way from a chain to a loaded image. It fails exactly when a matcher uses an
   operator without code, a called stub is missing, or a stub lies out of reach of a call,
   which takes an image of INT_MAX instructions.
   */
  method BuildProgram(c: Chain, stubs: map<Stub, StubBody>, link: Link) returns (p: Program, printer: P.Printer, ok: bool)
    requires Generable(c) && StubsOk(stubs)
    ensures fresh(p) && p.Valid() && fresh(printer) && printer.Valid()
    ensures ok ==> p.fixups == [] && StubsPlaced(p, c, stubs) && Implements(c, link, p.layout, p.img)
    ensures ok ==> Enforces(c, link, p.layout, p.img) && Contains(link, p.layout, ChainCode(c), p.img)
    ensures ok ==> StubsLoaded(p.img, p.layout, stubs, printer.msgs, link.printer)
    ensures ok <==> (forall r :: r in c.rules ==> RuleKnown(r)) && (forall s :: CalledIn(ChainCode(c), s) ==> s in stubs)
                    && !FarCall(ChainCode(c), p.layout)
    ensures ((forall r :: r in c.rules ==> RuleKnown(r)) && (forall s :: CalledIn(ChainCode(c), s) ==> s in stubs)
             && |p.code| < INT_MAX) ==> ok
  {
    hide Tracks, AllBlank, Bare, ChainCode, LaidOut, Shaped, LinkedFor, Reachable, FixedAll, Implements, Enforces, RuleKnown;
    hide Behind, AllStrings, StubsLoaded, OnlyStrings, Contains, FarCall, CalledIn;
    NoStubsNoFarCall(ChainCode(c));
    p := new Program();
    printer := new P.Printer();
    ok := GenChain(p, c, link);
    if !ok {
      return;
    }
    ghost var orig := ChainCode(c);
    ok := GenElfstubs(p, printer, stubs);
    if !ok {
      return;
    }
    ShapedChain(c);
    ghost var code := p.code;
    LinkedStart(link, p.layout, orig, p.code);
    LaidOutStrings(p.code, |orig|, p.layout, stubs);
    LaidOutDistinct(p.code, |orig|, p.layout, stubs);
    StringsOnly(link, p.layout, ToStub, p.code, |orig|);
    BehindStart(code, |orig|, link.printer);
    BehindPass(link, p.layout, ToStub, code, code, |orig|, false);
    assert code[..|orig|] == orig;
    FarCallIff(link, p.layout, stubs, code, |orig|);
    ok := p.ApplyFixups(ToStub, link);
    if !ok {
      return;
    }
    LinkedStubs(link, p.layout, orig, code);
    CallsPlaced(orig, p.layout);
    LoadMaps(p, link, orig, code);
    StubsAreLoaded(code, p.code, |orig|, p.layout, stubs, printer.msgs, link.printer);
    ContainsImplements(c, link, p.layout, p.img);
    ImplementsEnforces(c, link, p.layout, p.img);
    assert StubsKept(stubs, p.layout, |orig|, |p.img|) by { LaidOutKept(code, |orig|, p.layout, stubs); }
  }

  /** The called stubs, and only those, lie behind the program without overlap. */
  ghost predicate StubsPlaced(p: Program, c: Chain, stubs: map<Stub, StubBody>)
    requires ChainOk(c)
    reads p
  {
    && (forall s :: s in p.layout <==> CalledIn(ChainCode(c), s))
    && StubsKept(stubs, p.layout, |ChainCode(c)|, |p.img|)
  }

  predicate StubsKept(stubs: map<Stub, StubBody>, layout: Layout, n: nat, size: nat) {
    && layout.Keys <= stubs.Keys
    && (forall s :: s in layout ==> n <= layout[s] && layout[s] + |stubs[s].insns| <= size)
    && (forall s, t :: s in layout && t in layout && s != t ==> Apart(layout, stubs, s, t))
    && (forall i :: n <= i < size ==> InStub(layout, stubs, i))
  }

  lemma LaidOutKept(code: seq<Item>, n0: nat, layout: Layout, stubs: map<Stub, StubBody>)
    requires LaidOut(code, n0, layout, stubs)
    ensures StubsKept(stubs, layout, n0, |code|)
  {
    forall s | s in layout
      ensures n0 <= layout[s] && layout[s] + |stubs[s].insns| <= |code|
    {
      assert StubHere(code, n0, layout[s], stubs[s]);
    }
  }

  lemma CallsPlaced(orig: seq<Item>, layout: Layout)
    requires forall s :: s in layout <==> CalledIn(orig, s)
    ensures forall q :: 0 <= q < |orig| && orig[q].reloc.StubCall? ==> orig[q].reloc.stub in layout
  {
    forall q | 0 <= q < |orig| && orig[q].reloc.StubCall?
      ensures orig[q].reloc.stub in layout
    {
      CalledAt(orig, q);
    }
  }

  /** A call from which its stub is 2^31 instructions or more away. */
  predicate FarCall(orig: seq<Item>, layout: Layout) {
    exists q :: 0 <= q < |orig| && orig[q].reloc.StubCall? && orig[q].reloc.stub in layout
      && layout[orig[q].reloc.stub] - q - 1 >= INT_MAX
  }

  lemma NoStubsNoFarCall(orig: seq<Item>)
    ensures !FarCall(orig, map[])
  {
  }

  /** Stubs lie behind every call, so the pass fails exactly on far calls, and only in a huge image. */
  lemma FarCallIff(link: Link, layout: Layout, stubs: map<Stub, StubBody>, code: seq<Item>, n0: nat)
    requires LaidOut(code, n0, layout, stubs)
    requires forall s :: s in layout <==> CalledIn(code[..n0], s)
    ensures n0 <= |code| && (FarCall(code[..n0], layout) <==> !Reachable(link, layout, code, ToStub))
    ensures FarCall(code[..n0], layout) ==> |code| >= INT_MAX
  {
    NoCallsBehind(code, n0, layout, stubs);
    var orig := code[..n0];
    if FarCall(orig, layout) {
      var q :| 0 <= q < |orig| && orig[q].reloc.StubCall? && orig[q].reloc.stub in layout
        && layout[orig[q].reloc.stub] - q - 1 >= INT_MAX;
      assert OfType(code[q].reloc, ToStub) && FixupValue(link, layout, |code|, Fixup(code[q].reloc, q)).Unreachable?;
      assert StubHere(code, n0, layout[orig[q].reloc.stub], stubs[orig[q].reloc.stub]);
    }
    if !Reachable(link, layout, code, ToStub) {
      var q :| 0 <= q < |code| && OfType(code[q].reloc, ToStub) && FixupValue(link, layout, |code|, Fixup(code[q].reloc, q)).Unreachable?;
      assert orig[q] == code[q];
      CalledAt(orig, q);
      assert StubHere(code, n0, layout[code[q].reloc.stub], stubs[code[q].reloc.stub]);
    }
  }
}
