/**
 Where control can go: in the code of every chain, jumps lead forward, stay inside the
 program, and never lead onto the second half of a two-slot load.
 */
module Jumps {
  import opened Bits
  import opened Bpf
  import opened Asm
  import opened Switch
  import opened Chain
  import opened Reference
  import opened Matchers
  import opened Prologue
  import opened Compiler
  import opened Image
  import opened Build

  /** A position control may be at: the end of the code, or an instruction's first slot. */
  predicate Entry(code: seq<Item>, k: int) {
    k == |code| || (0 <= k < |code| && !code[k].insn.op.SecondSlot?)
  }

  /** Jumps within the code lead forward to an entry; second slots stand behind their first. */
  predicate GoodItem(code: seq<Item>, i: nat)
    requires i < |code|
  {
    var x := code[i];
    && (IsJump(x.insn.op) && !x.reloc.NextRule? ==> x.insn.off >= 0 && Entry(code, i + 1 + x.insn.off))
    && (TwoSlot(x.insn.op) ==> i + 1 < |code| && code[i + 1].insn.op.SecondSlot?)
    && (x.insn.op.SecondSlot? ==> i > 0 && TwoSlot(code[i - 1].insn.op))
  }

  predicate Sound(code: seq<Item>) {
    forall i :: 0 <= i < |code| ==> GoodItem(code, i)
  }

  lemma SoundConcat(a: seq<Item>, b: seq<Item>)
    requires Sound(a) && Sound(b)
    ensures Sound(a + b)
  {
    var c := a + b;
    forall i | 0 <= i < |c|
      ensures GoodItem(c, i)
    {
      if i < |a| {
        GoodLeft(a, b, i);
      } else {
        GoodRight(a, b, i - |a|);
      }
    }
  }

  lemma GoodLeft(a: seq<Item>, b: seq<Item>, i: nat)
    requires i < |a| && GoodItem(a, i) && Sound(b)
    ensures GoodItem(a + b, i)
  {
    var c := a + b;
    assert c[i] == a[i] && (i + 1 < |a| ==> c[i + 1] == a[i + 1]) && (i > 0 ==> c[i - 1] == a[i - 1]);
    if IsJump(a[i].insn.op) && !a[i].reloc.NextRule? {
      var t := i + 1 + a[i].insn.off;
      if t == |a| && b != [] {
        assert GoodItem(b, 0) && c[t] == b[0];
      } else if t < |a| {
        assert c[t] == a[t];
      }
    }
  }

  lemma GoodRight(a: seq<Item>, b: seq<Item>, i: nat)
    requires i < |b| && GoodItem(b, i)
    ensures GoodItem(a + b, |a| + i)
  {
    var c := a + b;
    assert c[|a| + i] == b[i] && (i + 1 < |b| ==> c[|a| + i + 1] == b[i + 1]) && (i > 0 ==> c[|a| + i - 1] == b[i - 1]);
    if IsJump(b[i].insn.op) && !b[i].reloc.NextRule? {
      var t := i + 1 + b[i].insn.off;
      if t < |b| {
        assert c[|a| + t] == b[t];
      }
    }
  }

  /** One jump in front of sound code. */
  lemma SoundCons(jump: Item, code: seq<Item>)
    requires Sound(code) && IsJump(jump.insn.op) && jump.insn.off >= 0 && Entry(code, jump.insn.off)
    ensures Sound([jump] + code)
  {
    var c := [jump] + code;
    forall i | 0 <= i < |c|
      ensures GoodItem(c, i)
    {
      if i > 0 {
        GoodRight([jump], code, i - 1);
      } else if jump.insn.off < |code| {
        assert c[1 + jump.insn.off] == code[jump.insn.off];
      }
    }
  }

  lemma SoundSkipIf(jump: Item, body: seq<Item>)
    requires Sound(body) && IsJump(jump.insn.op)
    ensures Sound(SkipIf(jump, body))
  {
    hide Sound;
    SoundCons(jump.(insn := jump.insn.(off := |body|)), body);
  }

  // ---- switches ----

  lemma {:induction false} SoundBodies(cases: seq<Case>, d: seq<Item>)
    requires (forall c :: c in cases ==> Sound(c.body)) && Sound(d)
    ensures Sound(Bodies(cases, |d|) + d) && |Bodies(cases, |d|)| == BodiesLen(cases)
    decreases |cases|
  {
    hide Sound;
    if cases == [] {
      assert [] + d == d;
    } else {
      assert cases[0] in cases;
      SoundBodies(cases[1..], d);
      var rest := Bodies(cases[1..], |d|) + d;
      var jump := Jump(BodiesLen(cases[1..]) + |d|);
      SoundCons(jump, rest);
      SoundConcat(cases[0].body, [jump] + rest);
      assert Bodies(cases, |d|) + d == cases[0].body + ([jump] + rest);
    }
  }

  /** Offset of the body of a case among the bodies. */
  function BodyStart(cases: seq<Case>, j: nat): nat
    requires j <= |cases|
    decreases |cases|
  {
    if j == 0 then 0 else |cases[0].body| + 1 + BodyStart(cases[1..], j - 1)
  }

  lemma {:induction false} BodyEntry(cases: seq<Case>, d: seq<Item>, j: nat)
    requires j < |cases| && forall c :: c in cases ==> Sound(c.body)
    ensures Entry(Bodies(cases, |d|) + d, BodyStart(cases, j))
    decreases |cases|
  {
    var rest := Bodies(cases[1..], |d|) + d;
    var jump := Jump(BodiesLen(cases[1..]) + |d|);
    var all := Bodies(cases, |d|) + d;
    assert all == cases[0].body + ([jump] + rest);
    if j == 0 {
      if cases[0].body != [] {
        assert cases[0] in cases && GoodItem(cases[0].body, 0);
        assert all[0] == cases[0].body[0];
      } else {
        assert all[0] == jump;
      }
    } else {
      BodyEntry(cases[1..], d, j - 1);
      var k := BodyStart(cases[1..], j - 1);
      if k < |rest| {
        assert all[|cases[0].body| + 1 + k] == rest[k];
      }
    }
  }

  lemma {:induction false} SoundTests(reg: Reg, cases: seq<Case>, ahead: nat, rest: seq<Item>)
    requires Sound(rest) && forall j :: 0 <= j < |cases| ==> Entry(rest, ahead + BodyStart(cases, j))
    ensures Sound(Tests(reg, cases, ahead) + rest) && |Tests(reg, cases, ahead)| == |cases|
    decreases |cases|
  {
    hide Sound;
    if cases == [] {
      assert [] + rest == rest;
    } else {
      var next := ahead + |cases[0].body| + 1;
      forall j | 0 <= j < |cases[1..]|
        ensures Entry(rest, next + BodyStart(cases[1..], j))
      {
        assert Entry(rest, ahead + BodyStart(cases, j + 1));
      }
      SoundTests(reg, cases[1..], next, rest);
      var more := Tests(reg, cases[1..], next);
      var jump := JumpImm(Jeq, reg, S32(cases[0].imm), |cases| - 1 + ahead);
      assert Entry(rest, ahead + BodyStart(cases, 0));
      assert Entry(more + rest, |more| + ahead);
      SoundCons(jump, more + rest);
      assert Tests(reg, cases, ahead) + rest == [jump] + (more + rest);
    }
  }

  /** Every switch lowers to sound code. */
  lemma SoundSwitch(reg: Reg, cases: seq<Case>, default: Default)
    requires (forall c :: c in cases ==> Sound(c.body)) && Sound(default.Body())
    ensures Sound(SwitchCode(reg, cases, default))
  {
    hide Sound, Bodies, Tests, BodyStart, Entry, Dispatch, SwitchCode;
    var d := default.Body();
    var bodies, rest := Bodies(cases, |d|) + d, Dispatch(cases, default) + (Bodies(cases, |d|) + d);
    SoundBodies(cases, d);
    SoundDispatch(cases, default);
    forall j | 0 <= j < |cases|
      ensures Entry(rest, default.Jumps() + BodyStart(cases, j))
    {
      BodyEntry(cases, d, j);
      EntryShift(Dispatch(cases, default), bodies, BodyStart(cases, j));
    }
    SoundTests(reg, cases, default.Jumps(), rest);
    SwitchSplit(reg, cases, default);
  }

  lemma SoundDispatch(cases: seq<Case>, default: Default)
    requires Sound(Bodies(cases, |default.Body()|) + default.Body()) && Sound(default.Body())
    requires |Bodies(cases, |default.Body()|)| == BodiesLen(cases)
    ensures Sound(Dispatch(cases, default) + (Bodies(cases, |default.Body()|) + default.Body()))
    ensures |Dispatch(cases, default)| == default.Jumps()
  {
    hide Sound, Bodies, Entry;
    var bodies := Bodies(cases, |default.Body()|) + default.Body();
    if default.Otherwise? {
      DefaultEntry(cases, default.Body());
      SoundCons(Jump(BodiesLen(cases)), bodies);
    } else {
      assert [] + bodies == bodies;
    }
  }

  lemma SwitchSplit(reg: Reg, cases: seq<Case>, default: Default)
    ensures SwitchCode(reg, cases, default) ==
            Tests(reg, cases, default.Jumps()) + (Dispatch(cases, default) + (Bodies(cases, |default.Body()|) + default.Body()))
  {
    hide Bodies, Tests, Dispatch;
  }

  lemma EntryShift(a: seq<Item>, b: seq<Item>, k: nat)
    requires Entry(b, k)
    ensures Entry(a + b, |a| + k)
  {
    if k < |b| {
      assert (a + b)[|a| + k] == b[k];
    }
  }

  lemma DefaultEntry(cases: seq<Case>, d: seq<Item>)
    requires Sound(d) && |Bodies(cases, |d|)| == BodiesLen(cases)
    ensures Entry(Bodies(cases, |d|) + d, BodiesLen(cases))
  {
    if d != [] {
      assert GoodItem(d, 0);
    }
  }

  // ---- the pieces of a program ----

  predicate Straight(code: seq<Item>) {
    forall i :: 0 <= i < |code| ==>
      var x := code[i]; (IsJump(x.insn.op) ==> x.reloc.NextRule?) && !TwoSlot(x.insn.op) && !x.insn.op.SecondSlot?
  }

  lemma SoundStraight(code: seq<Item>)
    requires Straight(code)
    ensures Sound(code)
  {
  }

  lemma SoundWide(x: Item, y: Item)
    requires TwoSlot(x.insn.op) && y.insn.op.SecondSlot?
    ensures Sound([x, y])
  {
  }

  lemma SoundCount(key: nat, verdict: int)
    ensures Sound(CountCode(key)) && Sound(ExitCode(verdict)) && Sound(CountAndExit(key, verdict))
  {
    var a, b := [Mov64Reg(1, 10), AluImm(Add, 1, ARG)], [Mov32Imm(3, key), CallStubItem(UpdateCounters)];
    var w := [LoadMap(2, CountersMap), Second(0)];
    SoundStraight(a);
    SoundStraight(b);
    SoundStraight(ExitCode(verdict));
    SoundWide(w[0], w[1]);
    hide Sound;
    SoundConcat(w, b);
    SoundConcat(a, w + b);
    assert CountCode(key) == a + (w + b);
    SoundConcat(CountCode(key), ExitCode(verdict));
  }

  lemma SoundSlice(err: nat, accept: nat)
    ensures Sound(SliceCode(err, accept)) && Sound(DynptrCode(err, accept))
  {
    var a := [Mov64Imm(2, 0), Mov64Reg(3, 10), AluImm(Add, 3, DYNPTR), KernelCall(DynptrFrom)];
    SoundStraight(a);
    SoundStraight([KernelCall(DynptrSlice)]);
    hide Sound, CountAndExit, SkipIf;
    SoundCount(err, accept);
    SoundSkipIf(JumpImm(Jne, 0, 0, 0), CountAndExit(err, accept));
    SoundSkipIf(JumpImm(Jeq, 0, 0, 0), CountAndExit(err, accept));
    SoundConcat([KernelCall(DynptrSlice)], SkipIf(JumpImm(Jne, 0, 0, 0), CountAndExit(err, accept)));
    SoundConcat(a, SkipIf(JumpImm(Jeq, 0, 0, 0), CountAndExit(err, accept)));
  }

  lemma SoundIp(record: bool)
    ensures Sound(IpCode(record))
  {
    SoundStraight(V4Code());
    assert Sound(V6Code(record));
    hide Sound, V4Code, V6Code, SkipIf;
    SoundSkipIf(JumpImm(Jne, 7, IP4, 0), V4Code());
    SoundSkipIf(JumpImm(Jne, 7, IP6, 0), V6Code(record));
    SoundConcat(SkipIf(JumpImm(Jne, 7, IP4, 0), V4Code()), SkipIf(JumpImm(Jne, 7, IP6, 0), V6Code(record)));
  }

  lemma SoundOne(x: Item)
    requires !IsJump(x.insn.op) && !TwoSlot(x.insn.op) && !x.insn.op.SecondSlot?
    ensures Sound([x])
  {
  }

  lemma SoundCases()
    ensures (forall c :: c in L3_CASES ==> Sound(c.body)) && Sound(NO_L3.Body())
    ensures (forall c :: c in L4_CASES ==> Sound(c.body)) && Sound(NO_L4.Body())
    ensures (forall c :: c in FAMILY_CASES ==> Sound(c.body)) && Sound(NO_FAMILY.Body())
  {
    hide Sound;
    SoundOne(Mov64Imm(4, 20));
    SoundOne(Mov64Imm(4, 40));
    SoundOne(Mov64Imm(4, 8));
    SoundOne(Mov64Imm(7, IP4));
    SoundOne(Mov64Imm(7, IP6));
    SoundOne(Mov64Imm(7, 0));
    SoundOne(Mov64Imm(8, 0));
  }

  lemma SoundArgs()
    ensures Sound(SliceArgs(L3_SIZE, L3_OFFSET, L2_BUF)) && Sound(SliceArgs(L4_SIZE, L4_OFFSET, L4_BUF)) && Sound(L2Args())
    ensures Sound([StxMem(DW, 10, 0, L3_HDR)]) && Sound([StxMem(DW, 10, 0, L4_HDR)])
  {
    hide Sound;
    SoundStraight(SliceArgs(L3_SIZE, L3_OFFSET, L2_BUF));
    SoundStraight(SliceArgs(L4_SIZE, L4_OFFSET, L4_BUF));
    SoundStraight(L2Args());
    SoundOne(StxMem(DW, 10, 0, L3_HDR));
    SoundOne(StxMem(DW, 10, 0, L4_HDR));
  }

  lemma SoundLayers(err: nat, accept: nat, record: bool)
    ensures Sound(L3Code(err, accept, record)) && Sound(L4Code(err, accept))
  {
    hide Sound, SliceCode, IpCode, SwitchCode, SkipIf;
    SoundSlice(err, accept);
    SoundIp(record);
    SoundArgs();
    SoundCases();
    var a, b := SliceArgs(L3_SIZE, L3_OFFSET, L2_BUF), SliceArgs(L4_SIZE, L4_OFFSET, L4_BUF);
    var l3, l4 := [StxMem(DW, 10, 0, L3_HDR)], [StxMem(DW, 10, 0, L4_HDR)];
    SoundConcat(a, SliceCode(err, accept));
    SoundConcat(a + SliceCode(err, accept), l3);
    SoundConcat(a + SliceCode(err, accept) + l3, IpCode(record));
    SoundConcat(b, SliceCode(err, accept));
    SoundConcat(b + SliceCode(err, accept), l4);
    SoundSkipIf(JumpImm(Jeq, 7, 0, 0), L3Body(err, accept, record));
    SoundSkipIf(JumpImm(Jeq, 8, 0, 0), L4Body(err, accept));
    SoundSwitch(7, L3_CASES, NO_L3);
    SoundSwitch(8, L4_CASES, NO_L4);
    SoundConcat(SwitchCode(7, L3_CASES, NO_L3), SkipIf(JumpImm(Jeq, 7, 0, 0), L3Body(err, accept, record)));
    SoundConcat(SwitchCode(8, L4_CASES, NO_L4), SkipIf(JumpImm(Jeq, 8, 0, 0), L4Body(err, accept)));
  }

  lemma SoundEntry(flags: Flags)
    ensures Sound(EntryCode(flags))
  {
    var a := [StxMem(DW, 10, 1, ARG), Mov64Imm(7, 0), Mov64Imm(8, 0)];
    var b := if flags.log then [LoadMap(2, LogMap), Second(0), StxMem(DW, 10, 2, LOG_MAP)] else [];
    var c := if flags.storeNexthdr then [StxMem(DW, 10, 7, IPV6_EH)] else [];
    SoundStraight(a);
    SoundStraight(c);
    assert Sound(b);
    hide Sound;
    SoundConcat(a, b);
    SoundConcat(a + b, c);
  }

  lemma SoundHead(hook: Hook, err: nat, accept: nat)
    ensures Sound(HeadCode(hook, err, accept))
  {
    var tail := [StxMem(DW, 10, 0, L2_HDR), LdxMem(H, 7, 0, 12), StMem(W, 10, L3_OFFSET, ETH_HLEN)];
    var family, off := [LdxMem(W, 2, 1, SKB_FAMILY)], [StMem(W, 10, L3_OFFSET, 0)];
    SoundStraight(tail);
    SoundStraight(family);
    SoundStraight(off);
    SoundStraight(MetaCode(hook));
    hide Sound, SliceCode, SwitchCode, DynptrCode, MetaCode;
    SoundArgs();
    SoundSlice(err, accept);
    SoundCases();
    SoundSwitch(2, FAMILY_CASES, NO_FAMILY);
    if IsCgroup(hook) {
      SoundConcat(family, SwitchCode(2, FAMILY_CASES, NO_FAMILY));
      SoundConcat(family + SwitchCode(2, FAMILY_CASES, NO_FAMILY), off);
      SoundConcat(FamilyCode(), DynptrCode(err, accept));
      SoundConcat(MetaCode(hook), FamilyCode() + DynptrCode(err, accept));
    } else {
      SoundConcat(L2Args(), SliceCode(err, accept));
      SoundConcat(L2Args() + SliceCode(err, accept), tail);
      SoundConcat(DynptrCode(err, accept), L2Code(err, accept));
      SoundConcat(MetaCode(hook), DynptrCode(err, accept) + L2Code(err, accept));
    }
  }

  lemma SoundPrologue(hook: Hook, flags: Flags, err: nat, accept: nat)
    ensures Sound(PrologueCode(hook, flags, err, accept))
  {
    hide Sound, EntryCode, HeadCode, L3Code, L4Code;
    SoundEntry(flags);
    SoundHead(hook, err, accept);
    SoundLayers(err, accept, flags.storeNexthdr);
    var layers := L3Code(err, accept, flags.storeNexthdr) + L4Code(err, accept);
    SoundConcat(L3Code(err, accept, flags.storeNexthdr), L4Code(err, accept));
    SoundConcat(HeadCode(hook, err, accept), layers);
    SoundConcat(EntryCode(flags), HeadCode(hook, err, accept) + layers);
  }

  lemma SoundMatcher(m: Matcher)
    requires WellFormed(m)
    ensures Sound(MatcherCode(m))
  {
    hide SwitchCode, MaskWord, NetWord, U32, Sound;
    if m.kind == MetaSport || m.kind == MetaDport {
      SoundPort(m);
    } else {
      SoundStraight(MatcherCode(m));
    }
  }

  lemma SoundPort(m: Matcher)
    requires WellFormed(m) && (m.kind == MetaSport || m.kind == MetaDport)
    ensures Sound(PortCode(m))
  {
    var load, test := [LdxMem(DW, 6, 10, L4_HDR)], [NextRuleImm(Jeq, 1, 0)] + PortTestCode(m);
    SoundStraight(test);
    hide Sound, SwitchCode, PortTestCode;
    SoundOne(load[0]);
    SoundOne(LdxMem(H, 1, 6, PortOff(m.kind)));
    SoundOne(Mov64Imm(1, 0));
    SoundSwitch(8, PortCases(m.kind), NO_PORT);
    SoundConcat(load, SwitchCode(8, PortCases(m.kind), NO_PORT));
    SoundConcat(load + SwitchCode(8, PortCases(m.kind), NO_PORT), test);
  }

  lemma {:induction false} SoundMatchers(ms: seq<Matcher>)
    requires forall m :: m in ms ==> WellFormed(m)
    ensures Sound(MatchersCode(ms))
    decreases |ms|
  {
    hide MatcherCode, WellFormed, Sound;
    if ms == [] {
      SoundStraight([]);
    } else {
      assert ms[0] in ms;
      SoundMatcher(ms[0]);
      SoundMatchers(ms[1..]);
      SoundConcat(MatcherCode(ms[0]), MatchersCode(ms[1..]));
    }
  }

  lemma SoundAction(hook: Hook, r: Rule)
    ensures Sound(ActionCode(hook, r))
  {
    hide Sound, CountCode, ExitCode;
    SoundStraight(SetMarkCode(r));
    SoundStraight(LogCode(r));
    SoundStraight([]);
    SoundCount(r.index, ReturnCode(hook, r.verdict));
    hide SetMarkCode, LogCode;
    SoundConcat(RuleCountCode(r), VerdictCode(hook, r.verdict));
    SoundConcat(LogCode(r), RuleCountCode(r) + VerdictCode(hook, r.verdict));
    SoundConcat(SetMarkCode(r), LogCode(r) + (RuleCountCode(r) + VerdictCode(hook, r.verdict)));
  }

  /** Jumps to the next rule, once resolved, lead to the end of the rule. */
  lemma SoundResolve(code: seq<Item>)
    requires Sound(code) && forall x :: x in code && x.reloc.NextRule? ==> IsJump(x.insn.op)
    ensures Sound(Resolve(code))
  {
    var r := Resolve(code);
    forall i | 0 <= i < |r|
      ensures GoodItem(r, i)
    {
      assert GoodItem(code, i) && code[i] in code;
      if IsJump(code[i].insn.op) && !code[i].reloc.NextRule? {
        var t := i + 1 + code[i].insn.off;
        assert t < |code| ==> r[t].insn.op == code[t].insn.op;
      }
    }
  }

  lemma {:induction false} SoundRules(hook: Hook, rules: seq<Rule>)
    requires forall r :: r in rules ==> RuleOk(r)
    ensures Sound(RulesCode(hook, rules))
    decreases |rules|
  {
    hide MatchersCode, ActionCode, WellFormed, Shaped1, Resolve, Sound;
    if rules == [] {
      SoundStraight([]);
    } else {
      var r := rules[0];
      assert r in rules;
      SoundMatchers(r.matchers);
      SoundAction(hook, r);
      SoundConcat(MatchersCode(r.matchers), ActionCode(hook, r));
      ShapedMatchers(r.matchers);
      ShapedAction(hook, r);
      ShapedIsRuleShaped(ActionCode(hook, r));
      RuleShapedConcat(MatchersCode(r.matchers), ActionCode(hook, r));
      SoundResolve(RuleBody(hook, r));
      SoundRules(hook, rules[1..]);
      SoundConcat(RuleCode(hook, r), RulesCode(hook, rules[1..]));
    }
  }

  /** In the code of a chain, every jump leads forward to an instruction of the code. */
  lemma ChainJumps(c: Chain, i: nat)
    requires ChainOk(c) && i < |ChainCode(c)| && IsJump(ChainCode(c)[i].insn.op)
    ensures var code := ChainCode(c);
            var t := i + 1 + code[i].insn.off;
            code[i].insn.off >= 0 && t < |code| && !code[t].insn.op.SecondSlot?
  {
    hide PrologueCode, RulesCode, WellFormed, Shaped1;
    var head := PrologueCode(c.hook, c.flags, ErrorKey(c), ReturnCode(c.hook, Accept)) + RulesCode(c.hook, c.rules);
    var exit := CountAndExit(PolicyKey(c), ReturnCode(c.hook, c.policy));
    SoundPrologue(c.hook, c.flags, ErrorKey(c), ReturnCode(c.hook, Accept));
    SoundRules(c.hook, c.rules);
    SoundConcat(PrologueCode(c.hook, c.flags, ErrorKey(c), ReturnCode(c.hook, Accept)), RulesCode(c.hook, c.rules));
    SoundCount(PolicyKey(c), ReturnCode(c.hook, c.policy));
    SoundConcat(head, exit);
    assert ChainCode(c) == head + exit;
    ShapedChain(c);
    assert ChainCode(c)[i] in ChainCode(c);
    assert i < |head| by { NoJumpAtTheEnd(PolicyKey(c), ReturnCode(c.hook, c.policy), head, i); }
    assert GoodItem(head, i) && GoodItem(head + exit, i) && ChainCode(c)[i] == head[i];
    assert |exit| == 8 by { ExitLast(PolicyKey(c), ReturnCode(c.hook, c.policy)); }
  }

  lemma NoJumpAtTheEnd(key: nat, verdict: int, head: seq<Item>, i: nat)
    requires i < |head + CountAndExit(key, verdict)| && IsJump((head + CountAndExit(key, verdict))[i].insn.op)
    ensures i < |head|
  {
    if i >= |head| {
      NoJumpInExit(key, verdict, i - |head|);
    }
  }

  lemma NoJumpInExit(key: nat, verdict: int, i: nat)
    requires i < |CountAndExit(key, verdict)|
    ensures !IsJump(CountAndExit(key, verdict)[i].insn.op)
  {
  }

  /** The same in a finished image: linking changes neither jumps nor where they lead. */
  lemma ImageJumps(c: Chain, link: Link, layout: Layout, img: seq<Insn>, i: nat)
    requires ChainOk(c) && Contains(link, layout, ChainCode(c), img) && i < |ChainCode(c)| && IsJump(img[i].op)
    ensures var t := i + 1 + img[i].off; i < t < |ChainCode(c)| && !img[t].op.SecondSlot?
  {
    hide ChainCode, ChainOk;
    var code := ChainCode(c);
    assert LinkedItem(link, layout, code[i], img[i], i);
    assert img[i].op == code[i].insn.op && img[i].off == code[i].insn.off;
    ChainJumps(c, i);
    var t := i + 1 + img[i].off;
    assert LinkedItem(link, layout, code[t], img[t], t);
  }
}
