/**
 The layout bf_swich_generate() gives to a switch, and what running it does: comparisons
 first, then a jump to the default, then every body followed by a jump behind the block,
 then the default body.
 */
module Switch {
  import opened Bits
  import opened Packet
  import opened Bpf
  import opened Asm

  datatype Case = Case(imm: nat, body: seq<Item>)

  datatype Default = NoDefault | Otherwise(body: seq<Item>) {
    function Body(): seq<Item> { if Otherwise? then body else [] }
    function Jumps(): nat { if Otherwise? then 1 else 0 }
  }

  /** Length of the bodies, each with its closing jump. */
  function BodiesLen(cases: seq<Case>): nat {
    if cases == [] then 0 else |cases[0].body| + 1 + BodiesLen(cases[1..])
  }

  /** The comparisons; `ahead` instructions lie between the last comparison and the first body left. */
  function Tests(reg: Reg, cases: seq<Case>, ahead: nat): seq<Item> {
    if cases == [] then []
    else [JumpImm(Jeq, reg, S32(cases[0].imm), |cases| - 1 + ahead)]
         + Tests(reg, cases[1..], ahead + |cases[0].body| + 1)
  }

  /** The bodies; each jumps over the rest and over `tail` more instructions. */
  function Bodies(cases: seq<Case>, tail: nat): seq<Item> {
    if cases == [] then []
    else cases[0].body + [Jump(BodiesLen(cases[1..]) + tail)] + Bodies(cases[1..], tail)
  }

  function Dispatch(cases: seq<Case>, default: Default): seq<Item> {
    if default.Otherwise? then [Jump(BodiesLen(cases))] else []
  }

  function SwitchCode(reg: Reg, cases: seq<Case>, default: Default): seq<Item> {
    Tests(reg, cases, default.Jumps()) + Dispatch(cases, default)
    + Bodies(cases, |default.Body()|) + default.Body()
  }

  /** A 64-bit register against a 32-bit immediate: the immediate is sign-extended. */
  predicate Selects(imm: nat, n: nat) {
    n == S32(imm) % TWO64
  }

  lemma SelectsSmall(imm: nat, n: nat)
    requires imm < TWO31
    ensures Selects(imm, n) <==> n == imm
  {
  }

  /** Index of the first case selected by n, or the number of cases. */
  function First(cases: seq<Case>, n: nat): (i: nat)
    ensures i <= |cases|
    ensures i < |cases| ==> Selects(cases[i].imm, n)
    ensures forall j :: 0 <= j < i ==> !Selects(cases[j].imm, n)
  {
    if cases == [] || Selects(cases[0].imm, n) then 0 else 1 + First(cases[1..], n)
  }

  /** The body a switch on n is meant to run. */
  function Chosen(cases: seq<Case>, default: Default, n: nat): seq<Item> {
    var i := First(cases, n);
    if i < |cases| then cases[i].body else default.Body()
  }

  predicate ClosedBodies(cases: seq<Case>, default: Default) {
    (forall c :: c in cases ==> Closed(c.body)) && Closed(default.Body())
  }

  // Control does not leave a body by jumping past its end.
  predicate Contained(o: Outcome) {
    o.At? ==> o.k == 0
  }

  lemma {:induction false} Lengths(reg: Reg, cases: seq<Case>, ahead: nat, tail: nat)
    ensures |Tests(reg, cases, ahead)| == |cases|
    ensures |Bodies(cases, tail)| == BodiesLen(cases)
    decreases |cases|
  {
    if cases != [] {
      Lengths(reg, cases[1..], ahead + |cases[0].body| + 1, tail);
    }
  }

  lemma {:induction false} TestsAreJumps(reg: Reg, cases: seq<Case>, ahead: nat)
    ensures forall x :: x in Tests(reg, cases, ahead) ==> x.insn.op == JmpImm(Jeq)
    decreases |cases|
  {
    if cases != [] {
      TestsAreJumps(reg, cases[1..], ahead + |cases[0].body| + 1);
    }
  }

  // Where case i starts among the bodies.
  function Start(cases: seq<Case>, i: nat): nat
    requires i <= |cases|
  {
    if i == 0 then 0 else |cases[0].body| + 1 + Start(cases[1..], i - 1)
  }

  lemma {:induction false} TestsMeaning(env: Env, link: Link, reg: Reg, cases: seq<Case>, ahead: nat, st: State)
    requires st.regs[reg].Num?
    ensures var i := First(cases, st.regs[reg].n);
            Run(env, link, Tests(reg, cases, ahead), 0, st) ==
            At(if i < |cases| then ahead + Start(cases, i) else 0, st)
    decreases |cases|
  {
    hide Exec, Run;
    var n, code := st.regs[reg].n, Tests(reg, cases, ahead);
    Lengths(reg, cases, ahead, 0);
    if cases == [] {
      RunEnd(env, link, code, 0, st);
    } else {
      var rest := Tests(reg, cases[1..], ahead + |cases[0].body| + 1);
      assert code == [code[0]] + rest;
      var hit := Selects(cases[0].imm, n);
      StepJump(env, link, code, 0, st, hit);
      if hit {
        RunEnd(env, link, code, |cases| + ahead, st);
      } else {
        RunShift(env, link, [code[0]], rest, 1, st);
        TestsMeaning(env, link, reg, cases[1..], ahead + |cases[0].body| + 1, st);
      }
    }
  }

  lemma {:induction false} BodiesMeaning(env: Env, link: Link, cases: seq<Case>, tail: nat, i: nat, st: State)
    requires i < |cases| && forall c :: c in cases ==> Closed(c.body)
    requires Contained(Run(env, link, cases[i].body, 0, st))
    ensures var o := Run(env, link, cases[i].body, 0, st);
            Run(env, link, Bodies(cases, tail), Start(cases, i), st) == if o.At? then At(tail, o.st) else o
    decreases i
  {
    hide Exec, Run;
    var body, rest := cases[0].body, Bodies(cases[1..], tail);
    var jump := [Jump(BodiesLen(cases[1..]) + tail)];
    Lengths(0, cases[1..], 0, tail);
    if i == 0 {
      assert cases[0] in cases;
      assert Bodies(cases, tail) == body + (jump + rest);
      RunConcat(env, link, body, jump + rest, 0, st);
      var o := Run(env, link, body, 0, st);
      if o.At? {
        StepJump(env, link, jump + rest, 0, o.st, true);
        RunEnd(env, link, jump + rest, 1 + BodiesLen(cases[1..]) + tail, o.st);
      }
    } else {
      assert forall c :: c in cases[1..] ==> c in cases;
      RunShift(env, link, body + jump, rest, Start(cases, i), st);
      BodiesMeaning(env, link, cases[1..], tail, i - 1, st);
    }
  }

  lemma {:induction false} BodiesClosed(cases: seq<Case>, tail: nat)
    ensures Closed(Bodies(cases, tail))
    decreases |cases|
  {
    if cases != [] {
      BodiesClosed(cases[1..], tail);
    }
  }

  // Entering the bodies at case i runs that body and continues behind the block.
  lemma EnterCase(env: Env, link: Link, cases: seq<Case>, default: Default, i: nat, st: State)
    requires ClosedBodies(cases, default) && i < |cases| && Contained(Run(env, link, cases[i].body, 0, st))
    ensures Run(env, link, Bodies(cases, |default.Body()|) + default.Body(), Start(cases, i), st) ==
            Run(env, link, cases[i].body, 0, st)
  {
    hide Exec, Run;
    var tail := default.Body();
    BodiesClosed(cases, |tail|);
    RunConcat(env, link, Bodies(cases, |tail|), tail, Start(cases, i), st);
    BodiesMeaning(env, link, cases, |tail|, i, st);
    var o := Run(env, link, cases[i].body, 0, st);
    if o.At? {
      RunEnd(env, link, tail, |tail|, o.st);
    }
  }

  // What happens after the comparisons, k instructions further.
  lemma AfterTests(env: Env, link: Link, reg: Reg, cases: seq<Case>, default: Default, st: State)
    requires st.regs[reg].Num?
    ensures var i := First(cases, st.regs[reg].n);
            Run(env, link, SwitchCode(reg, cases, default), 0, st) ==
            Run(env, link, Dispatch(cases, default) + (Bodies(cases, |default.Body()|) + default.Body()),
                if i < |cases| then default.Jumps() + Start(cases, i) else 0, st)
  {
    hide Exec, Run;
    var t := Tests(reg, cases, default.Jumps());
    var rest := Dispatch(cases, default) + (Bodies(cases, |default.Body()|) + default.Body());
    assert SwitchCode(reg, cases, default) == t + rest;
    TestsAreJumps(reg, cases, default.Jumps());
    assert Closed(t) by {
      if t != [] { assert t[|t| - 1] in t; }
    }
    RunConcat(env, link, t, rest, 0, st);
    TestsMeaning(env, link, reg, cases, default.Jumps(), st);
  }

  /**
   A switch with a default runs exactly the body of the first selected case, or the default,
   and control continues at the instruction behind the block. Cases may repeat.
   */
  lemma SwitchMeaning(env: Env, link: Link, reg: Reg, cases: seq<Case>, default: Default, st: State)
    requires default.Otherwise? && ClosedBodies(cases, default) && st.regs[reg].Num?
    requires Contained(Run(env, link, Chosen(cases, default, st.regs[reg].n), 0, st))
    ensures Run(env, link, SwitchCode(reg, cases, default), 0, st) ==
            Run(env, link, Chosen(cases, default, st.regs[reg].n), 0, st)
  {
    hide Exec, Run;
    var i := First(cases, st.regs[reg].n);
    var d, rest := Dispatch(cases, default), Bodies(cases, |default.Body()|) + default.Body();
    AfterTests(env, link, reg, cases, default, st);
    if i < |cases| {
      RunShift(env, link, d, rest, 1 + Start(cases, i), st);
      EnterCase(env, link, cases, default, i, st);
    } else {
      StepJump(env, link, d + rest, 0, st, true);
      Lengths(reg, cases, 0, |default.Body()|);
      RunShift(env, link, d, rest, 1 + BodiesLen(cases), st);
      RunShift(env, link, Bodies(cases, |default.Body()|), default.Body(), BodiesLen(cases), st);
    }
  }

  /**
   Without a default nothing jumps behind the block: a value that selects no case runs the
   first case's body. The block is a switch exactly for values that select some case.
   */
  lemma SwitchWithoutDefault(env: Env, link: Link, reg: Reg, cases: seq<Case>, st: State)
    requires cases != [] && ClosedBodies(cases, NoDefault) && st.regs[reg].Num?
    requires forall c :: c in cases ==> Contained(Run(env, link, c.body, 0, st))
    ensures var i := First(cases, st.regs[reg].n);
            Run(env, link, SwitchCode(reg, cases, NoDefault), 0, st) ==
            Run(env, link, cases[if i < |cases| then i else 0].body, 0, st)
  {
    hide Exec, Run;
    var i := First(cases, st.regs[reg].n);
    var j := if i < |cases| then i else 0;
    var rest := Bodies(cases, 0) + [];
    AfterTests(env, link, reg, cases, NoDefault, st);
    assert [] + rest == rest;
    assert cases[j] in cases;
    EnterCase(env, link, cases, NoDefault, j, st);
  }
}
