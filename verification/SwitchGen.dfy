/**
 bf_swich_generate() as it works on the image: emit the comparisons with open offsets, emit
 the bodies while closing the comparisons one by one, then close every jump behind the
 bodies. The result is the layout of module Switch with every offset cut to 16 bits, as the
 back-patching cuts it; it is that layout exactly when all offsets fit.
 */
module SwitchGen {
  import opened Bits
  import opened Bpf
  import opened Asm
  import opened Switch
  import opened Program

  predicate AllFixed(code: seq<Item>) {
    forall i :: 0 <= i < |code| ==> code[i].reloc.Fixed?
  }

  // ---- intermediate images ----

  function TestOff(cases: seq<Case>, ahead: nat, j: nat): nat
    requires j < |cases|
  {
    |cases| - 1 - j + ahead + Start(cases, j)
  }

  /** An offset as it is meant, or as the 16-bit field holds it. */
  function Field(n: int, wide: bool): int {
    if wide then n else ToInt16(n)
  }

  /** The comparisons of which the first k are closed. */
  function DraftTests(reg: Reg, cases: seq<Case>, ahead: nat, k: nat, wide: bool): (r: seq<Item>)
    ensures |r| == |cases|
  {
    seq(|cases|, j requires 0 <= j < |cases| =>
      JumpImm(Jeq, reg, S32(cases[j].imm), if j < k then Field(TestOff(cases, ahead, j), wide) else 0))
  }

  function JumpOff(cases: seq<Case>, tail: nat, j: nat): int
    requires j < |cases|
  {
    BodiesLen(cases) + tail - Start(cases, j + 1)
  }

  /** The first i bodies, of whose closing jumps the first m are closed. */
  function Draft(cases: seq<Case>, tail: nat, m: nat, i: nat, wide: bool): seq<Item>
    requires i <= |cases|
  {
    if i == 0 then []
    else Draft(cases, tail, m, i - 1, wide) + cases[i - 1].body
         + [Jump(if i - 1 < m then Field(JumpOff(cases, tail, i - 1), wide) else 0)]
  }

  lemma {:induction false} StartNext(cases: seq<Case>, i: nat)
    requires i < |cases|
    ensures Start(cases, i + 1) == Start(cases, i) + |cases[i].body| + 1
    decreases i
  {
    if i > 0 {
      StartNext(cases[1..], i - 1);
    }
  }

  lemma {:induction false} StartAll(cases: seq<Case>, i: nat)
    requires i <= |cases|
    ensures Start(cases, i) <= BodiesLen(cases) && Start(cases, |cases|) == BodiesLen(cases)
    decreases |cases|
  {
    if cases != [] {
      StartAll(cases[1..], if i > 0 then i - 1 else 0);
    }
  }

  lemma {:induction false} DraftLen(cases: seq<Case>, tail: nat, m: nat, i: nat, wide: bool)
    requires i <= |cases|
    ensures |Draft(cases, tail, m, i, wide)| == Start(cases, i)
    decreases i
  {
    if i > 0 {
      DraftLen(cases, tail, m, i - 1, wide);
      StartNext(cases, i - 1);
    }
  }

  /** Bodies not closed yet do not depend on how many are to be closed. */
  lemma {:induction false} DraftOpen(cases: seq<Case>, tail: nat, m: nat, i: nat, wide: bool)
    requires i <= |cases| && i <= m
    ensures Draft(cases, tail, m, i, wide) == Draft(cases, tail, i, i, wide)
    decreases i
  {
    if i > 0 {
      DraftOpen(cases, tail, m, i - 1, wide);
      DraftOpen(cases, tail, i, i - 1, wide);
    }
  }

  /** Closing jump m of the draft. */
  lemma {:induction false} DraftClose(cases: seq<Case>, tail: nat, m: nat, i: nat, wide: bool)
    requires m < i <= |cases|
    ensures |Draft(cases, tail, m, i, wide)| == Start(cases, i) && 1 <= Start(cases, m + 1) <= Start(cases, i)
    ensures Draft(cases, tail, m, i, wide)[Start(cases, m + 1) - 1] == Jump(0)
    ensures Draft(cases, tail, m, i, wide)[Start(cases, m + 1) - 1 := Jump(Field(JumpOff(cases, tail, m), wide))]
         == Draft(cases, tail, m + 1, i, wide)
    decreases i
  {
    hide Field, BodiesLen;
    DraftLen(cases, tail, m, i, wide);
    DraftLen(cases, tail, m, i - 1, wide);
    StartNext(cases, i - 1);
    if i == m + 1 {
      DraftOpen(cases, tail, m + 1, m, wide);
    } else {
      DraftClose(cases, tail, m, i - 1, wide);
    }
  }

  lemma {:induction false} DraftFront(cases: seq<Case>, tail: nat, i: nat, wide: bool)
    requires 1 <= i <= |cases|
    ensures Draft(cases, tail, |cases|, i, wide) ==
            cases[0].body + [Jump(Field(JumpOff(cases, tail, 0), wide))] + Draft(cases[1..], tail, |cases| - 1, i - 1, wide)
    decreases i
  {
    if i > 1 {
      DraftFront(cases, tail, i - 1, wide);
      assert JumpOff(cases, tail, i - 1) == JumpOff(cases[1..], tail, i - 2);
      assert cases[1..][i - 2] == cases[i - 1];
    }
  }

  /** All bodies closed without cutting offsets: the layout of the specification. */
  lemma {:induction false} DraftDone(cases: seq<Case>, tail: nat)
    ensures Draft(cases, tail, |cases|, |cases|, true) == Bodies(cases, tail)
    decreases |cases|
  {
    if cases != [] {
      hide Draft, JumpOff, BodiesLen, Bodies;
      var rest := cases[1..];
      DraftFront(cases, tail, |cases|, true);
      DraftDone(rest, tail);
      FirstJump(cases, tail);
      BodiesUnfold(cases, tail);
    }
  }

  lemma BodiesUnfold(cases: seq<Case>, tail: nat)
    requires cases != []
    ensures Bodies(cases, tail) == cases[0].body + [Jump(BodiesLen(cases[1..]) + tail)] + Bodies(cases[1..], tail)
  {
  }

  lemma FirstJump(cases: seq<Case>, tail: nat)
    requires cases != []
    ensures JumpOff(cases, tail, 0) == BodiesLen(cases[1..]) + tail
  {
    assert Start(cases, 1) == |cases[0].body| + 1 + Start(cases[1..], 0);
  }

  lemma {:induction false} TestsAt(reg: Reg, cases: seq<Case>, ahead: nat, j: nat)
    requires j < |cases|
    ensures |Tests(reg, cases, ahead)| == |cases|
    ensures Tests(reg, cases, ahead)[j] == JumpImm(Jeq, reg, S32(cases[j].imm), TestOff(cases, ahead, j))
    decreases |cases|
  {
    Lengths(reg, cases, ahead, 0);
    if j > 0 {
      TestsAt(reg, cases[1..], ahead + |cases[0].body| + 1, j - 1);
    }
  }

  lemma DraftTestsDone(reg: Reg, cases: seq<Case>, ahead: nat)
    ensures DraftTests(reg, cases, ahead, |cases|, true) == Tests(reg, cases, ahead)
  {
    Lengths(reg, cases, ahead, 0);
    forall j | 0 <= j < |cases|
      ensures DraftTests(reg, cases, ahead, |cases|, true)[j] == Tests(reg, cases, ahead)[j]
    {
      TestsAt(reg, cases, ahead, j);
    }
  }

  lemma SwitchLen(reg: Reg, cases: seq<Case>, default: Default)
    ensures |SwitchCode(reg, cases, default)| == |cases| + default.Jumps() + BodiesLen(cases) + |default.Body()|
  {
    Lengths(reg, cases, default.Jumps(), |default.Body()|);
  }

  lemma SmallInt16(n: int)
    requires 0 <= n
    ensures ToInt16(n) == n <==> n <= SHRT_MAX
  {
  }

  /** Patching inside the middle part of an image. */
  lemma PatchMiddle(a: seq<Item>, b: seq<Item>, c: seq<Item>, i: nat, x: Item)
    requires i < |b|
    ensures (a + b + c)[|a| + i := x] == a + b[i := x] + c
  {
  }

  function OpenDispatch(default: Default): seq<Item> {
    if default.Otherwise? then [Jump(0)] else []
  }

  function ClosedDispatch(cases: seq<Case>, default: Default, wide: bool): seq<Item> {
    if default.Otherwise? then [Jump(Field(BodiesLen(cases), wide))] else []
  }

  /** What the three passes leave in the image. */
  function Lowered(reg: Reg, cases: seq<Case>, default: Default, wide: bool): seq<Item> {
    DraftTests(reg, cases, default.Jumps(), |cases|, wide) + ClosedDispatch(cases, default, wide)
    + Draft(cases, |default.Body()|, |cases|, |cases|, wide) + default.Body()
  }

  // ---- when it is the switch ----

  /** Every jump of the switch can be written into 16 bits. */
  predicate OffsetsFit(cases: seq<Case>, default: Default) {
    && (forall j :: 0 <= j < |cases| ==> TestOff(cases, default.Jumps(), j) <= SHRT_MAX)
    && (forall j :: 0 <= j < |cases| ==> JumpOff(cases, |default.Body()|, j) <= SHRT_MAX)
    && (default.Otherwise? ==> BodiesLen(cases) <= SHRT_MAX)
  }

  lemma {:induction false} DraftAt(cases: seq<Case>, tail: nat, i: nat, wide: bool, j: nat)
    requires j < i <= |cases|
    ensures |Draft(cases, tail, |cases|, i, wide)| == Start(cases, i) && 1 <= Start(cases, j + 1) <= Start(cases, i)
    ensures Draft(cases, tail, |cases|, i, wide)[Start(cases, j + 1) - 1] == Jump(Field(JumpOff(cases, tail, j), wide))
    decreases i
  {
    hide Field, BodiesLen;
    DraftLen(cases, tail, |cases|, i, wide);
    DraftLen(cases, tail, |cases|, i - 1, wide);
    StartNext(cases, i - 1);
    if j < i - 1 {
      DraftAt(cases, tail, i - 1, wide, j);
    }
  }

  lemma {:induction false} DraftFits(cases: seq<Case>, tail: nat, i: nat)
    requires i <= |cases| && forall j :: 0 <= j < |cases| ==> JumpOff(cases, tail, j) <= SHRT_MAX
    ensures Draft(cases, tail, |cases|, i, false) == Draft(cases, tail, |cases|, i, true)
    decreases i
  {
    if i > 0 {
      DraftFits(cases, tail, i - 1);
      StartAll(cases, i);
      SmallInt16(JumpOff(cases, tail, i - 1));
    }
  }

  lemma TestsIff(reg: Reg, cases: seq<Case>, ahead: nat)
    ensures DraftTests(reg, cases, ahead, |cases|, false) == DraftTests(reg, cases, ahead, |cases|, true) <==>
            forall j :: 0 <= j < |cases| ==> TestOff(cases, ahead, j) <= SHRT_MAX
  {
    hide Start;
    var a, b := DraftTests(reg, cases, ahead, |cases|, false), DraftTests(reg, cases, ahead, |cases|, true);
    forall j | 0 <= j < |cases|
      ensures a[j] == b[j] <==> TestOff(cases, ahead, j) <= SHRT_MAX
    {
      SmallInt16(TestOff(cases, ahead, j));
    }
  }

  lemma DraftIff(cases: seq<Case>, tail: nat)
    ensures Draft(cases, tail, |cases|, |cases|, false) == Draft(cases, tail, |cases|, |cases|, true) <==>
            forall j :: 0 <= j < |cases| ==> JumpOff(cases, tail, j) <= SHRT_MAX
  {
    hide Draft, Start, BodiesLen;
    if forall j :: 0 <= j < |cases| ==> JumpOff(cases, tail, j) <= SHRT_MAX {
      DraftFits(cases, tail, |cases|);
    }
    if Draft(cases, tail, |cases|, |cases|, false) == Draft(cases, tail, |cases|, |cases|, true) {
      forall j | 0 <= j < |cases|
        ensures JumpOff(cases, tail, j) <= SHRT_MAX
      {
        DraftAt(cases, tail, |cases|, false, j);
        DraftAt(cases, tail, |cases|, true, j);
        StartAll(cases, j + 1);
        SmallInt16(JumpOff(cases, tail, j));
      }
    }
  }

  lemma SameParts(a: seq<Item>, b: seq<Item>, c: seq<Item>, d: seq<Item>, a': seq<Item>, b': seq<Item>, c': seq<Item>)
    requires |a| == |a'| && |b| == |b'| && |c| == |c'|
    ensures a + b + c + d == a' + b' + c' + d <==> a == a' && b == b' && c == c'
  {
    var x, y := a + b + c + d, a' + b' + c' + d;
    assert x[..|a|] == a && y[..|a|] == a';
    assert x[|a|..|a| + |b|] == b && y[|a|..|a| + |b|] == b';
    assert x[|a| + |b|..|a| + |b| + |c|] == c && y[|a| + |b|..|a| + |b| + |c|] == c';
  }

  lemma WideIsSwitch(reg: Reg, cases: seq<Case>, default: Default)
    ensures Lowered(reg, cases, default, true) == SwitchCode(reg, cases, default)
  {
    DraftTestsDone(reg, cases, default.Jumps());
    DraftDone(cases, |default.Body()|);
  }

  /** The emitted block is the switch if and only if every one of its offsets fits 16 bits. */
  lemma LoweredIsSwitch(reg: Reg, cases: seq<Case>, default: Default)
    ensures Lowered(reg, cases, default, false) == SwitchCode(reg, cases, default) <==> OffsetsFit(cases, default)
  {
    WideIsSwitch(reg, cases, default);
    hide SwitchCode, DraftTests, Draft, BodiesLen, TestOff, JumpOff;
    var d, tail := default.Jumps(), |default.Body()|;
    TestsIff(reg, cases, d);
    DraftIff(cases, tail);
    DraftLen(cases, tail, |cases|, |cases|, false);
    DraftLen(cases, tail, |cases|, |cases|, true);
    SmallInt16(BodiesLen(cases));
    SameParts(DraftTests(reg, cases, d, |cases|, false), ClosedDispatch(cases, default, false),
              Draft(cases, tail, |cases|, |cases|, false), default.Body(),
              DraftTests(reg, cases, d, |cases|, true), ClosedDispatch(cases, default, true),
              Draft(cases, tail, |cases|, |cases|, true));
  }

  /** A block that is short enough as a whole has only offsets that fit. */
  lemma ShortSwitchFits(reg: Reg, cases: seq<Case>, default: Default)
    requires |SwitchCode(reg, cases, default)| <= SHRT_MAX
    ensures Lowered(reg, cases, default, false) == SwitchCode(reg, cases, default)
  {
    hide SwitchCode, Lowered, BodiesLen, Start;
    SwitchLen(reg, cases, default);
    forall j | 0 <= j < |cases|
      ensures TestOff(cases, default.Jumps(), j) <= SHRT_MAX && JumpOff(cases, |default.Body()|, j) <= SHRT_MAX
    {
      StartAll(cases, j);
      StartAll(cases, j + 1);
    }
    LoweredIsSwitch(reg, cases, default);
  }

  lemma FixedIsBlank(code: seq<Item>)
    requires AllFixed(code)
    ensures AllBlank(code)
  {
  }

  // ---- the three passes ----

  method EmitTests(p: Program, reg: Reg, cases: seq<Case>, ghost ahead: nat) returns (jmps: seq<nat>)
    requires p.Valid()
    modifies p
    ensures p.Valid() && p.layout == old(p.layout)
    ensures p.code == old(p.code) + DraftTests(reg, cases, ahead, 0, false)
    ensures |jmps| == |cases| && forall j :: 0 <= j < |cases| ==> jmps[j] == |old(p.code)| + j
  {
    jmps := [];
    ghost var tests := DraftTests(reg, cases, ahead, 0, false);
    for i := 0 to |cases|
      invariant p.Valid() && p.layout == old(p.layout) && |jmps| == i
      invariant forall j :: 0 <= j < i ==> jmps[j] == |old(p.code)| + j
      invariant p.code == old(p.code) + tests[..i]
    {
      var j := p.JmpGet(JumpImm(Jeq, reg, S32(cases[i].imm), 0));
      jmps := jmps + [j];
      assert tests[..i + 1] == tests[..i] + [tests[i]];
    }
    assert tests[..|cases|] == tests;
  }

  /** Close comparison i, emit its body and an open jump. */
  method EmitBody(p: Program, reg: Reg, cases: seq<Case>, default: Default, i: nat, test: nat, ghost c0: seq<Item>)
    returns (jmp: nat)
    requires p.Valid() && i < |cases| && AllFixed(cases[i].body) && test == |c0| + i
    requires p.code == c0 + DraftTests(reg, cases, default.Jumps(), i, false)
                       + (OpenDispatch(default) + Draft(cases, |default.Body()|, 0, i, false))
    modifies p
    ensures p.Valid() && p.layout == old(p.layout)
    ensures p.code == c0 + DraftTests(reg, cases, default.Jumps(), i + 1, false)
                         + (OpenDispatch(default) + Draft(cases, |default.Body()|, 0, i + 1, false))
    ensures jmp == |c0| + |cases| + default.Jumps() + Start(cases, i + 1) - 1
  {
    hide Tracks, AllBlank, SwitchCode, Bare, DraftTests, Draft, BodiesLen, Start, ToInt16;
    FixedIsBlank(cases[i].body);
    ghost var d, tail := default.Jumps(), |default.Body()|;
    ghost var tests, rest := DraftTests(reg, cases, d, i, false), OpenDispatch(default) + Draft(cases, tail, 0, i, false);
    DraftLen(cases, tail, 0, i, false);
    StartNext(cases, i);
    StartAll(cases, i);
    CloseTest(reg, cases, d, i);
    PatchMiddle(c0, tests, rest, i, JumpImm(Jeq, reg, S32(cases[i].imm), Field(TestOff(cases, d, i), false)));
    p.JmpCleanup(test);
    p.EmitAll(cases[i].body);
    jmp := p.JmpGet(Jump(0));
    BodyAppended(c0 + DraftTests(reg, cases, d, i + 1, false), OpenDispatch(default), cases, tail, i);
  }

  lemma CloseTest(reg: Reg, cases: seq<Case>, ahead: nat, i: nat)
    requires i < |cases|
    ensures var t := DraftTests(reg, cases, ahead, i, false);
            && t[i] == JumpImm(Jeq, reg, S32(cases[i].imm), 0)
            && t[i := JumpImm(Jeq, reg, S32(cases[i].imm), Field(TestOff(cases, ahead, i), false))] ==
               DraftTests(reg, cases, ahead, i + 1, false)
  {
    hide Start, ToInt16;
  }

  lemma BodyAppended(a: seq<Item>, b: seq<Item>, cases: seq<Case>, tail: nat, i: nat)
    requires i < |cases|
    ensures a + (b + Draft(cases, tail, 0, i, false)) + cases[i].body + [Jump(0)] == a + (b + Draft(cases, tail, 0, i + 1, false))
  {
    assert Draft(cases, tail, 0, i + 1, false) == Draft(cases, tail, 0, i, false) + cases[i].body + [Jump(0)];
  }

  /** Close the jump behind body m. */
  method CloseBody(p: Program, reg: Reg, cases: seq<Case>, default: Default, m: nat, jmp: nat, ghost front: seq<Item>)
    requires p.Valid() && m < |cases|
    requires jmp == |front| + Start(cases, m + 1) - 1
    requires p.code == front + Draft(cases, |default.Body()|, m, |cases|, false) + default.Body()
    modifies p
    ensures p.Valid() && p.layout == old(p.layout)
    ensures p.code == front + Draft(cases, |default.Body()|, m + 1, |cases|, false) + default.Body()
  {
    hide Tracks, AllBlank, SwitchCode, Bare, Draft, ToInt16;
    ghost var tail := |default.Body()|;
    DraftClose(cases, tail, m, |cases|, false);
    StartAll(cases, m + 1);
    PatchMiddle(front, Draft(cases, tail, m, |cases|, false), default.Body(), Start(cases, m + 1) - 1,
                Jump(Field(JumpOff(cases, tail, m), false)));
    p.JmpCleanup(jmp);
  }

  lemma DraftStart(reg: Reg, cases: seq<Case>, default: Default)
    ensures Draft(cases, |default.Body()|, 0, 0, false) == []
    ensures DraftTests(reg, cases, default.Jumps(), 0, false) + OpenDispatch(default) ==
            DraftTests(reg, cases, default.Jumps(), 0, false) + (OpenDispatch(default) + Draft(cases, |default.Body()|, 0, 0, false))
  {
  }

  /** For every option list and bodies of any length. */
  method GenerateSwitch(p: Program, reg: Reg, cases: seq<Case>, default: Default)
    requires p.Valid() && (forall i :: 0 <= i < |cases| ==> AllFixed(cases[i].body)) && AllFixed(default.Body())
    modifies p
    ensures p.Valid() && p.layout == old(p.layout)
    ensures p.code == old(p.code) + Lowered(reg, cases, default, false)
    ensures Lowered(reg, cases, default, false) == SwitchCode(reg, cases, default) <==> OffsetsFit(cases, default)
  {
    hide SwitchCode, Tracks, AllBlank, Bare, DraftTests, Draft, Start, Tests, Bodies, Dispatch, OffsetsFit, BodiesLen;
    LoweredIsSwitch(reg, cases, default);
    DraftStart(reg, cases, default);
    ghost var c0, d, tail := p.code, default.Jumps(), |default.Body()|;
    var tests := EmitTests(p, reg, cases, d);
    var dispatch := 0;
    if default.Otherwise? {
      dispatch := p.JmpGet(Jump(0));
    }
    var jmps: seq<nat> := [];
    for i := 0 to |cases|
      invariant p.Valid() && p.layout == old(p.layout) && |jmps| == i
      invariant p.code == c0 + DraftTests(reg, cases, d, i, false) + (OpenDispatch(default) + Draft(cases, tail, 0, i, false))
      invariant forall j :: 0 <= j < i ==> jmps[j] == |c0| + |cases| + d + Start(cases, j + 1) - 1
    {
      var j := EmitBody(p, reg, cases, default, i, tests[i], c0);
      jmps := jmps + [j];
    }
    ghost var front := c0 + DraftTests(reg, cases, d, |cases|, false) + ClosedDispatch(cases, default, false);
    FinishDefault(p, reg, cases, default, dispatch, c0);
    for m := 0 to |cases|
      invariant p.Valid() && p.layout == old(p.layout)
      invariant p.code == front + Draft(cases, tail, m, |cases|, false) + default.Body()
    {
      CloseBody(p, reg, cases, default, m, jmps[m], front);
    }
    LoweredParts(reg, cases, default, c0);
  }

  lemma LoweredParts(reg: Reg, cases: seq<Case>, default: Default, c0: seq<Item>)
    ensures c0 + DraftTests(reg, cases, default.Jumps(), |cases|, false) + ClosedDispatch(cases, default, false)
            + Draft(cases, |default.Body()|, |cases|, |cases|, false) + default.Body() == c0 + Lowered(reg, cases, default, false)
  {
    hide DraftTests, Draft, ClosedDispatch;
    Regroup(c0, DraftTests(reg, cases, default.Jumps(), |cases|, false), ClosedDispatch(cases, default, false),
            Draft(cases, |default.Body()|, |cases|, |cases|, false), default.Body());
  }

  lemma Regroup(a: seq<Item>, b: seq<Item>, c: seq<Item>, d: seq<Item>, e: seq<Item>)
    ensures a + b + c + d + e == a + (b + c + d + e)
  {
  }

  /** Close the jump to the default and emit its body. */
  method FinishDefault(p: Program, reg: Reg, cases: seq<Case>, default: Default, dispatch: nat, ghost c0: seq<Item>)
    requires p.Valid() && AllFixed(default.Body())
    requires p.code == c0 + DraftTests(reg, cases, default.Jumps(), |cases|, false)
                       + (OpenDispatch(default) + Draft(cases, |default.Body()|, 0, |cases|, false))
    requires default.Otherwise? ==> dispatch == |c0| + |cases|
    modifies p
    ensures p.Valid() && p.layout == old(p.layout)
    ensures p.code == c0 + DraftTests(reg, cases, default.Jumps(), |cases|, false) + ClosedDispatch(cases, default, false)
                      + Draft(cases, |default.Body()|, 0, |cases|, false) + default.Body()
    ensures |c0 + DraftTests(reg, cases, default.Jumps(), |cases|, false) + ClosedDispatch(cases, default, false)| ==
            |c0| + |cases| + default.Jumps()
  {
    hide SwitchCode, Tracks, AllBlank, Bare, Draft, DraftTests, ToInt16;
    FixedIsBlank(default.Body());
    ghost var t := DraftTests(reg, cases, default.Jumps(), |cases|, false);
    ghost var bodies := Draft(cases, |default.Body()|, 0, |cases|, false);
    DraftLen(cases, |default.Body()|, 0, |cases|, false);
    StartAll(cases, 0);
    if default.Otherwise? {
      assert p.code == (c0 + t) + [Jump(0)] + bodies;
      PatchMiddle(c0 + t, [Jump(0)], bodies, 0, Jump(Field(BodiesLen(cases), false)));
      p.JmpCleanup(dispatch);
      p.EmitAll(default.Body());
    }
  }
}
