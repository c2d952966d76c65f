/**
 The generators as they work on the program: they append instructions, open and close jump
 contexts, and resolve next-rule jumps when a rule is complete. Each is proved to append
 exactly the code whose meaning is established elsewhere.
 */
module Generator {
  import opened Bits
  import opened Bpf
  import opened Asm
  import opened Switch
  import opened SwitchGen
  import opened Program
  import opened Chain
  import opened Reference
  import opened Matchers
  import opened Prologue
  import opened Compiler
  import opened Prefix

  /** Closing a jump context around a body. */
  lemma CloseScope(c0: seq<Item>, jump: Item, body: seq<Item>)
    requires |body| <= SHRT_MAX
    ensures (c0 + [jump] + body)[|c0| := jump.(insn := jump.insn.(off := ToInt16(|body|)))] == c0 + SkipIf(jump, body)
  {
    SmallInt16(|body|);
  }

  // ---- prologue ----

  method GenErrorExit(p: Program, jump: Item, err: nat, accept: nat)
    requires p.Valid() && IsJump(jump.insn.op) && jump.reloc.Fixed?
    modifies p
    ensures p.Valid() && p.layout == old(p.layout)
    ensures p.code == old(p.code) + SkipIf(jump, CountAndExit(err, accept))
  {
    hide Tracks, Bare;
    var j := p.JmpGet(jump);
    p.EmitAll(CountCode(err));
    p.EmitAll(ExitCode(accept));
    ghost var body := CountAndExit(err, accept);
    assert p.code == old(p.code) + [jump] + body;
    CloseScope(old(p.code), jump, body);
    p.JmpCleanup(j);
  }

  method GenDynptr(p: Program, err: nat, accept: nat)
    requires p.Valid()
    modifies p
    ensures p.Valid() && p.layout == old(p.layout) && p.code == old(p.code) + DynptrCode(err, accept)
  {
    hide Tracks, Bare, SkipIf, CountAndExit;
    p.EmitAll([Mov64Imm(2, 0), Mov64Reg(3, 10), AluImm(Add, 3, DYNPTR), KernelCall(DynptrFrom)]);
    GenErrorExit(p, JumpImm(Jeq, 0, 0, 0), err, accept);
  }

  method GenSlice(p: Program, err: nat, accept: nat)
    requires p.Valid()
    modifies p
    ensures p.Valid() && p.layout == old(p.layout) && p.code == old(p.code) + SliceCode(err, accept)
  {
    hide Tracks, Bare, SkipIf, CountAndExit;
    p.EmitAll([KernelCall(DynptrSlice)]);
    GenErrorExit(p, JumpImm(Jne, 0, 0, 0), err, accept);
  }

  method GenL2(p: Program, err: nat, accept: nat)
    requires p.Valid()
    modifies p
    ensures p.Valid() && p.layout == old(p.layout) && p.code == old(p.code) + L2Code(err, accept)
  {
    hide Tracks, Bare, SliceCode;
    p.EmitAll(L2Args());
    GenSlice(p, err, accept);
    p.EmitAll([StxMem(DW, 10, 0, L2_HDR), LdxMem(H, 7, 0, 12), StMem(W, 10, L3_OFFSET, ETH_HLEN)]);
  }

  /** bf_stub_parse_l3_hdr(), IPv6 part: four jump contexts closed at two places. */
  method GenV6(p: Program, record: bool)
    requires p.Valid()
    modifies p
    ensures p.Valid() && p.layout == old(p.layout) && p.code == old(p.code) + V6Code(record)
  {
    hide Tracks, Bare, V6Code, AllBlank;
    ghost var c0 := p.code;
    V6Blank(record);
    V6Layout(record);
    p.EmitAll([LdxMem(B, 8, 0, 6)]);
    var tcpjmp := p.JmpGet(JumpImm(Jeq, 8, TCP, 0));
    var udpjmp := p.JmpGet(JumpImm(Jeq, 8, UDP, 0));
    p.EmitAll(V6MaskTest());
    var noehjmp := p.JmpGet(Jump(0));
    p.EmitAll(V6Walk(record));
    var ehjmp := p.JmpGet(Jump(0));
    assert |p.code| == |c0| + 19;
    p.JmpCleanup(tcpjmp);
    p.JmpCleanup(udpjmp);
    p.JmpCleanup(noehjmp);
    p.EmitAll(V6Plain());
    p.JmpCleanup(ehjmp);
    V6Assembled(record, c0);
  }

  function V6MaskTest(): seq<Item> {
    [Plain(LdImm64, 2, 0, 0, EH_MASK_LOW), Second(EH_MASK_HIGH), JumpImm(Jge, 8, 64, 4), Mov64Imm(3, 1),
     AluReg(Lsh, 3, 8), AluReg(And, 3, 2), JumpImm(Jne, 3, 0, 4), JumpImm(Jeq, 8, 135, 3), JumpImm(Jeq, 8, 139, 2),
     JumpImm(Jeq, 8, 140, 1)]
  }

  function V6Walk(record: bool): seq<Item> {
    [Mov64Reg(1, 10), AluImm(Add, 1, ARG), CallStubItem(if record then ParseIpv6Nh else ParseIpv6Eh), Mov64Reg(8, 0)]
  }

  function V6Plain(): seq<Item> {
    [LdxMem(W, 2, 10, L3_OFFSET), AluImm(Add, 2, 40), StxMem(W, 10, 2, L4_OFFSET)]
  }

  lemma V6Blank(record: bool)
    ensures AllBlank([LdxMem(B, 8, 0, 6)]) && AllBlank(V6MaskTest()) && AllBlank(V6Walk(record)) && AllBlank(V6Plain())
    ensures |V6MaskTest()| == 10 && |V6Walk(record)| == 4 && |V6Plain()| == 3
  {
  }

  /** The pieces with their closed jumps are the IPv6 block. */
  lemma V6Assembled(record: bool, c0: seq<Item>)
    ensures var open := c0 + [LdxMem(B, 8, 0, 6)] + [JumpImm(Jeq, 8, TCP, 0)] + [JumpImm(Jeq, 8, UDP, 0)]
                        + V6MaskTest() + [Jump(0)] + V6Walk(record) + [Jump(0)];
            var n := |c0|;
            |open| == n + 19 &&
            (open[n + 1 := JumpImm(Jeq, 8, TCP, ToInt16(17))][n + 2 := JumpImm(Jeq, 8, UDP, ToInt16(16))]
             [n + 13 := Jump(ToInt16(5))] + V6Plain())[n + 18 := Jump(ToInt16(3))]
            == c0 + V6Code(record)
  {
  }

  method GenScope(p: Program, jump: Item, body: seq<Item>)
    requires p.Valid() && jump.reloc.Fixed? && AllBlank(body) && |body| <= SHRT_MAX
    modifies p
    ensures p.Valid() && p.layout == old(p.layout) && p.code == old(p.code) + SkipIf(jump, body)
  {
    hide Tracks, Bare;
    var j := p.JmpGet(jump);
    p.EmitAll(body);
    CloseScope(old(p.code), jump, body);
    p.JmpCleanup(j);
  }

  method GenIp(p: Program, record: bool)
    requires p.Valid()
    modifies p
    ensures p.Valid() && p.layout == old(p.layout) && p.code == old(p.code) + IpCode(record)
  {
    hide Tracks, Bare, V6Code;
    GenScope(p, JumpImm(Jne, 7, IP4, 0), V4Code());
    ghost var c1 := p.code;
    var j := p.JmpGet(JumpImm(Jne, 7, IP6, 0));
    GenV6(p, record);
    V6Layout(record);
    CloseScope(c1, JumpImm(Jne, 7, IP6, 0), V6Code(record));
    p.JmpCleanup(j);
    assert p.code == old(p.code) + (SkipIf(JumpImm(Jne, 7, IP4, 0), V4Code())
                                    + SkipIf(JumpImm(Jne, 7, IP6, 0), V6Code(record)));
  }

  method GenSliceAfter(p: Program, sizeField: int, offField: int, buf: int, err: nat, accept: nat, hdrField: int)
    requires p.Valid()
    modifies p
    ensures p.Valid() && p.layout == old(p.layout)
    ensures p.code == old(p.code) + (SliceArgs(sizeField, offField, buf) + SliceCode(err, accept)
                                     + [StxMem(DW, 10, 0, hdrField)])
  {
    hide Tracks, Bare, SliceCode;
    p.EmitAll(SliceArgs(sizeField, offField, buf));
    GenSlice(p, err, accept);
    p.EmitAll([StxMem(DW, 10, 0, hdrField)]);
  }

  lemma SwitchBounds()
    ensures |SwitchCode(7, L3_CASES, NO_L3)| <= 20 && |SwitchCode(8, L4_CASES, NO_L4)| <= 20
    ensures |SwitchCode(2, FAMILY_CASES, NO_FAMILY)| <= 20
    ensures forall kind :: |SwitchCode(8, PortCases(kind), NO_PORT)| <= 20
  {
    SwitchLen(7, L3_CASES, NO_L3);
    TwoCases(L3_CASES);
    SwitchLen(2, FAMILY_CASES, NO_FAMILY);
    TwoCases(FAMILY_CASES);
    SwitchLen(8, L4_CASES, NO_L4);
    assert BodiesLen(L4_CASES) == 2 + BodiesLen(L4_CASES[1..]) && BodiesLen(L4_CASES[1..]) == 2 + BodiesLen(L4_CASES[2..]) by {
      assert L4_CASES[1..][1..] == L4_CASES[2..];
    }
    TwoCases(L4_CASES[2..]);
    forall kind
      ensures |SwitchCode(8, PortCases(kind), NO_PORT)| <= 20
    {
      SwitchLen(8, PortCases(kind), NO_PORT);
      TwoCases(PortCases(kind));
    }
  }

  lemma TwoCases(cases: seq<Case>)
    requires |cases| == 2 && |cases[0].body| == 1 && |cases[1].body| == 1
    ensures BodiesLen(cases) == 4
  {
    assert BodiesLen(cases[1..]) == 2 + BodiesLen(cases[1..][1..]);
  }

  lemma BodyBounds(err: nat, accept: nat, record: bool)
    ensures |L3Body(err, accept, record)| <= 60 && |L4Body(err, accept)| <= 30
  {
    V6Layout(record);
  }

  /** bf_stub_parse_l3_hdr() */
  method GenL3(p: Program, err: nat, accept: nat, record: bool)
    requires p.Valid()
    modifies p
    ensures p.Valid() && p.layout == old(p.layout) && p.code == old(p.code) + L3Code(err, accept, record)
  {
    hide Tracks, Bare, SwitchCode, SliceArgs, SliceCode, IpCode;
    SwitchBounds();
    BodyBounds(err, accept, record);
    ShortSwitchFits(7, L3_CASES, NO_L3);
    GenerateSwitch(p, 7, L3_CASES, NO_L3);
    ghost var c1 := p.code;
    var outer := p.JmpGet(JumpImm(Jeq, 7, 0, 0));
    GenSliceAfter(p, L3_SIZE, L3_OFFSET, L2_BUF, err, accept, L3_HDR);
    GenIp(p, record);
    ghost var body := L3Body(err, accept, record);
    assert p.code == c1 + [JumpImm(Jeq, 7, 0, 0)] + body;
    CloseScope(c1, JumpImm(Jeq, 7, 0, 0), body);
    p.JmpCleanup(outer);
  }

  /** bf_stub_parse_l4_hdr() */
  method GenL4(p: Program, err: nat, accept: nat)
    requires p.Valid()
    modifies p
    ensures p.Valid() && p.layout == old(p.layout) && p.code == old(p.code) + L4Code(err, accept)
  {
    hide Tracks, Bare, SwitchCode, SliceArgs, SliceCode;
    SwitchBounds();
    BodyBounds(err, accept, false);
    ShortSwitchFits(8, L4_CASES, NO_L4);
    GenerateSwitch(p, 8, L4_CASES, NO_L4);
    ghost var c1 := p.code;
    var outer := p.JmpGet(JumpImm(Jeq, 8, 0, 0));
    GenSliceAfter(p, L4_SIZE, L4_OFFSET, L4_BUF, err, accept, L4_HDR);
    ghost var body := L4Body(err, accept);
    assert p.code == c1 + [JumpImm(Jeq, 8, 0, 0)] + body;
    CloseScope(c1, JumpImm(Jeq, 8, 0, 0), body);
    p.JmpCleanup(outer);
  }

  method GenFamily(p: Program)
    requires p.Valid()
    modifies p
    ensures p.Valid() && p.layout == old(p.layout) && p.code == old(p.code) + FamilyCode()
  {
    hide Tracks, Bare, SwitchCode;
    SwitchBounds();
    p.EmitAll([LdxMem(W, 2, 1, SKB_FAMILY)]);
    ShortSwitchFits(2, FAMILY_CASES, NO_FAMILY);
    GenerateSwitch(p, 2, FAMILY_CASES, NO_FAMILY);
    p.EmitAll([StMem(W, 10, L3_OFFSET, 0)]);
  }

  /** The flavour's gen_inline_prologue(), after the entry code of bf_program_generate(). */
  method GenPrologue(p: Program, hook: Hook, flags: Flags, err: nat, accept: nat)
    requires p.Valid() && p.code == []
    modifies p
    ensures p.Valid() && p.layout == old(p.layout) && p.code == PrologueCode(hook, flags, err, accept)
  {
    hide Tracks, Bare, AllBlank, EntryCode, HeadCode, L3Code, L4Code;
    EntryBlank(flags);
    p.EmitAll(EntryCode(flags));
    GenHead(p, hook, err, accept);
    GenL3(p, err, accept, flags.storeNexthdr);
    GenL4(p, err, accept);
    assert p.code == EntryCode(flags)
                     + (HeadCode(hook, err, accept) + (L3Code(err, accept, flags.storeNexthdr) + L4Code(err, accept)));
  }

  lemma EntryBlank(flags: Flags)
    ensures AllBlank(EntryCode(flags))
  {
  }

  method GenHead(p: Program, hook: Hook, err: nat, accept: nat)
    requires p.Valid()
    modifies p
    ensures p.Valid() && p.layout == old(p.layout) && p.code == old(p.code) + HeadCode(hook, err, accept)
  {
    hide Tracks, Bare, FamilyCode, DynptrCode, L2Code;
    p.EmitAll(MetaCode(hook));
    if IsCgroup(hook) {
      GenFamily(p);
      GenDynptr(p, err, accept);
      assert p.code == old(p.code) + (MetaCode(hook) + (FamilyCode() + DynptrCode(err, accept)));
    } else {
      GenDynptr(p, err, accept);
      GenL2(p, err, accept);
      assert p.code == old(p.code) + (MetaCode(hook) + (DynptrCode(err, accept) + L2Code(err, accept)));
    }
  }

  // ---- rules ----

  /** _bf_matcher_generate_meta_port() */
  method GenPort(p: Program, m: Matcher) returns (ok: bool)
    requires p.Valid() && WellFormed(m) && (m.kind == MetaSport || m.kind == MetaDport)
    modifies p
    ensures p.Valid() && p.layout == old(p.layout) && ok == OpKnown(m)
    ensures ok ==> p.code == old(p.code) + PortCode(m)
  {
    hide Tracks, Bare, SwitchCode;
    SwitchBounds();
    p.EmitAll([LdxMem(DW, 6, 10, L4_HDR)]);
    ShortSwitchFits(8, PortCases(m.kind), NO_PORT);
    GenerateSwitch(p, 8, PortCases(m.kind), NO_PORT);
    p.EmitAll([NextRuleImm(Jeq, 1, 0)]);
    if m.op != Eq && m.op != Ne && m.op != Range {
      return false;
    }
    p.EmitAll(PortTestCode(m));
    ok := true;
  }

  /** _bf_matcher_generate_ip4_net(): the mask is computed into a buffer first. */
  method GenNet(p: Program, m: Matcher)
    requires p.Valid() && WellFormed(m) && (m.kind == Ip4Snet || m.kind == Ip4Dnet)
    modifies p
    ensures p.Valid() && p.layout == old(p.layout) && p.code == old(p.code) + NetCode(m)
  {
    hide Tracks, Bare, MaskBytes, Word;
    var bytes := new byte[4](_ => 0);
    PrefixToMask(U32(m.payload), bytes);
    var mask := Word(bytes[..]);
    p.EmitAll([LdxMem(W, 1, 6, AddrOff(m.kind)), Mov32Imm(2, S32(NetWord(m)))]);
    if mask != TWO32 - 1 {
      p.EmitAll([Mov32Imm(3, S32(mask)), And32Reg(1, 3), And32Reg(2, 3)]);
    }
    p.EmitAll([NextRuleReg(Unless(m.op), 1, 2)]);
  }

  /** How generating code ends: emitted, refused, or calling an operation the hook does not have. */
  datatype Emission = Emitted | Declined | NullCall

  /** XDP programs have no operation that reads the mark, and nothing looks before calling it. */
  predicate Unreadable(hook: Hook, m: Matcher) {
    hook.Xdp? && m.kind == MetaMark
  }

  lemma BlankMatcher(m: Matcher)
    requires WellFormed(m)
    ensures AllBlank(Ip4Guard())
    ensures m.kind in {MetaSport, MetaDport, Ip4Snet, Ip4Dnet} || AllBlank(MatcherCode(m))
  {
    hide PortCode, NetCode, U32;
    assert AllBlank(Ip4Guard());
    if m.kind == Ip4Saddr || m.kind == Ip4Daddr {
      assert AllBlank(AddrCode(m));
    } else if m.kind == Ip4Proto {
      assert AllBlank(Ip4ProtoCode(m));
    }
  }

  /** The matcher dispatch of _bf_program_generate_rule(). */
  method GenMatcher(p: Program, hook: Hook, m: Matcher) returns (e: Emission)
    requires p.Valid() && WellFormed(m)
    modifies p
    ensures p.Valid() && p.layout == old(p.layout)
    ensures e.NullCall? <==> Unreadable(hook, m)
    ensures e.Emitted? <==> OpKnown(m) && !Unreadable(hook, m)
    ensures e.Emitted? ==> p.code == old(p.code) + MatcherCode(m)
  {
    hide Tracks, Bare, AllBlank, PortCode, NetCode, IfaceCode, L3ProtoCode, L4ProtoCode, MarkCode, Ip4Guard, AddrCode,
         Ip4ProtoCode, NexthdrCode, IcmpCodeItems, U32;
    BlankMatcher(m);
    e := Emitted;
    var ok := true;
    match m.kind
    case MetaIface => p.EmitAll(IfaceCode(m));
    case MetaL3Proto => p.EmitAll(L3ProtoCode(m));
    case MetaL4Proto => p.EmitAll(L4ProtoCode(m));
    case MetaSport =>
      ok := GenPort(p, m);
      if !ok { return Declined; }
    case MetaDport =>
      ok := GenPort(p, m);
      if !ok { return Declined; }
    case MetaMark =>
      if hook.Xdp? { return NullCall; }
      if m.op != Eq && m.op != Ne { return Declined; }
      p.EmitAll(MarkCode(m));
    case Ip4Saddr => p.EmitAll(Ip4Guard() + AddrCode(m));
    case Ip4Daddr => p.EmitAll(Ip4Guard() + AddrCode(m));
    case Ip4Snet =>
      p.EmitAll(Ip4Guard());
      GenNet(p, m);
    case Ip4Dnet =>
      p.EmitAll(Ip4Guard());
      GenNet(p, m);
    case Ip4Proto => p.EmitAll(Ip4Guard() + Ip4ProtoCode(m));
    case Ip6Nexthdr =>
      if m.op != Eq && m.op != Ne { return Declined; }
      p.EmitAll(NexthdrCode(m));
    case _ =>
      if m.op != Eq && m.op != Ne { return Declined; }
      p.EmitAll(IcmpCodeItems(m));
  }

  predicate RuleKnown(r: Rule) {
    forall m :: m in r.matchers ==> OpKnown(m)
  }

  /** Generating the matchers in order arrives at one whose mark cannot be read. */
  predicate NullAt(hook: Hook, ms: seq<Matcher>) {
    exists i :: 0 <= i < |ms| && Unreadable(hook, ms[i]) && forall j :: 0 <= j < i ==> OpKnown(ms[j]) && !Unreadable(hook, ms[j])
  }

  method GenMatchers(p: Program, hook: Hook, ms: seq<Matcher>) returns (e: Emission)
    requires p.Valid() && forall m :: m in ms ==> WellFormed(m)
    modifies p
    ensures p.Valid() && p.layout == old(p.layout)
    ensures e.NullCall? <==> NullAt(hook, ms)
    ensures e.Emitted? <==> forall m :: m in ms ==> OpKnown(m) && !Unreadable(hook, m)
    ensures e.Emitted? ==> p.code == old(p.code) + MatchersCode(ms)
  {
    hide Tracks, Bare, MatcherCode, WellFormed, OpKnown, Unreadable;
    for i := 0 to |ms|
      invariant p.Valid() && p.layout == old(p.layout)
      invariant forall j :: 0 <= j < i ==> OpKnown(ms[j]) && !Unreadable(hook, ms[j])
      invariant forall m :: m in ms[..i] ==> WellFormed(m)
      invariant p.code == old(p.code) + MatchersCode(ms[..i])
    {
      assert ms[i] in ms;
      e := GenMatcher(p, hook, ms[i]);
      if !e.Emitted? {
        return;
      }
      MatchersCodeAppend(ms[..i], ms[i]);
      assert ms[..i + 1] == ms[..i] + [ms[i]];
    }
    assert ms[..|ms|] == ms;
    e := Emitted;
  }

  lemma {:induction false} MatchersCodeAppend(ms: seq<Matcher>, m: Matcher)
    requires (forall x :: x in ms ==> WellFormed(x)) && WellFormed(m)
    ensures forall x :: x in ms + [m] ==> WellFormed(x)
    ensures MatchersCode(ms + [m]) == MatchersCode(ms) + MatcherCode(m)
    decreases |ms|
  {
    hide MatcherCode, WellFormed;
    if ms == [] {
      assert [m][1..] == [];
    } else {
      assert ms[0] in ms;
      assert (ms + [m])[1..] == ms[1..] + [m];
      MatchersCodeAppend(ms[1..], m);
    }
  }

  lemma ResolveAppend(link: Link, layout: Image.Layout, c0: seq<Item>, body: seq<Item>)
    requires NoNextRule(c0)
    ensures FixedAll(link, layout, ToNextRule, c0 + body) == c0 + Resolve(body)
    ensures Reachable(link, layout, c0 + body, ToNextRule)
  {
    var whole := c0 + body;
    forall q | 0 <= q < |whole|
      ensures FixedAll(link, layout, ToNextRule, whole)[q] == (c0 + Resolve(body))[q]
    {
      if q < |c0| {
        assert c0[q] in c0;
      }
    }
  }

  lemma ResolvedHasNone(body: seq<Item>)
    ensures NoNextRule(Resolve(body))
  {
  }

  /** Next-rule jumps reach the end of the rule with a 16-bit offset. */
  predicate RuleFitsJumps(hook: Hook, r: Rule) {
    RuleOk(r) && |RuleBody(hook, r)| <= SHRT_MAX
  }

  predicate MarksReadable(hook: Hook, r: Rule) {
    forall m :: m in r.matchers ==> !Unreadable(hook, m)
  }

  /** _bf_program_generate_rule(): refuses an unknown operator or a mark the hook cannot set. */
  method GenRule(p: Program, hook: Hook, r: Rule, link: Link) returns (e: Emission)
    requires p.Valid() && RuleFitsJumps(hook, r) && NoNextRule(p.code)
    modifies p
    ensures p.Valid() && p.layout == old(p.layout)
    ensures e.NullCall? <==> NullAt(hook, r.matchers)
    ensures e.Emitted? <==> RuleKnown(r) && MarksReadable(hook, r) && (r.MarkIsSet() ==> !hook.Xdp?)
    ensures e.Emitted? ==> p.code == old(p.code) + RuleCode(hook, r) && NoNextRule(p.code)
  {
    hide Tracks, Bare, MatchersCode, WellFormed, OpKnown, SetMarkCode, LogCode, RuleCountCode, VerdictCode;
    hide AllBlank, NoNextRule, Resolve, Unreadable, NullAt;
    ghost var c0 := p.code;
    e := GenMatchers(p, hook, r.matchers);
    if !e.Emitted? {
      return;
    }
    NotBoth(hook, r.matchers);
    if r.MarkIsSet() && hook.Xdp? {
      return Declined;
    }
    ActionBlank(hook, r);
    p.EmitAll(SetMarkCode(r));
    p.EmitAll(LogCode(r));
    p.EmitAll(RuleCountCode(r));
    p.EmitAll(VerdictCode(hook, r.verdict));
    ghost var body := RuleBody(hook, r);
    assert p.code == c0 + body;
    NextRuleReach(c0, body);
    ResolveAppend(link, p.layout, c0, body);
    var ok := p.ApplyFixups(ToNextRule, link);
    ResolvedHasNone(body);
    NoNextConcat(c0, Resolve(body));
  }

  lemma NotBoth(hook: Hook, ms: seq<Matcher>)
    requires forall m :: m in ms ==> !Unreadable(hook, m)
    ensures !NullAt(hook, ms)
  {
    hide Unreadable;
    assert forall i :: 0 <= i < |ms| ==> ms[i] in ms;
  }

  lemma NextRuleReach(c0: seq<Item>, body: seq<Item>)
    requires NoNextRule(c0) && |body| <= SHRT_MAX
    ensures forall q :: 0 <= q < |c0 + body| && (c0 + body)[q].reloc.NextRule? ==> |c0 + body| - q - 1 < SHRT_MAX
  {
    forall q | 0 <= q < |c0|
      ensures !c0[q].reloc.NextRule?
    {
      assert c0[q] in c0;
    }
  }

  lemma NoNextConcat(a: seq<Item>, b: seq<Item>)
    requires NoNextRule(a) && NoNextRule(b)
    ensures NoNextRule(a + b)
  {
  }

  lemma ActionBlank(hook: Hook, r: Rule)
    ensures AllBlank(SetMarkCode(r)) && AllBlank(LogCode(r)) && AllBlank(RuleCountCode(r))
    ensures AllBlank(VerdictCode(hook, r.verdict))
  {
  }
}
