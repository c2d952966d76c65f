/**
 Appending the ELF stubs a program calls: each one once, found by walking the fixup list
 while the list grows with the fixups of the stubs' own printed strings.
 */
module Stubs {
  import opened Bits
  import opened Bpf
  import opened Asm
  import opened Image
  import opened Program
  import P = Printer

  datatype PrintkStr = PrintkStr(insn: nat, str: string)

  /** A compiled stub: its instructions, and where it loads strings to print. */
  datatype StubBody = StubBody(insns: seq<Insn>, strs: seq<PrintkStr>)

  /** Every string load has two slots inside the stub, and no two loads overlap. */
  predicate StubOk(b: StubBody) {
    && |b.insns| > 0
    && (forall k :: 0 <= k < |b.strs| ==> b.strs[k].insn + 1 < |b.insns|)
    && (forall j, k :: 0 <= j < k < |b.strs| ==>
          b.strs[j].insn + 1 < b.strs[k].insn || b.strs[k].insn + 1 < b.strs[j].insn)
  }

  /** Instruction i of a stub is not one of the slots of a string load. */
  predicate Untouched(b: StubBody, upTo: nat, i: nat)
    requires upTo <= |b.strs|
  {
    forall k :: 0 <= k < upTo ==> i != b.strs[k].insn && i != b.strs[k].insn + 1
  }

  /** The stub lies at `at`, its first `upTo` string loads rewritten to the printer map. */
  predicate Placed(code: seq<Item>, at: nat, b: StubBody, upTo: nat)
    requires upTo <= |b.strs| && StubOk(b)
  {
    && at + |b.insns| <= |code|
    && (forall i :: 0 <= i < |b.insns| && Untouched(b, upTo, i) ==> code[at + i] == Item(b.insns[i], Fixed))
    && (forall i :: at <= i < at + |b.insns| ==> code[i].reloc.Fixed? || code[i].reloc == MapFd(PrinterMap))
    && (forall k :: 0 <= k < upTo ==>
          code[at + b.strs[k].insn].insn.op.LdMapValue? && code[at + b.strs[k].insn].reloc == MapFd(PrinterMap))
  }

  lemma TracksLoad(code: seq<Item>, fixups: seq<Fixup>, i: nat, item: Item, second: Item)
    requires Tracks(code, fixups) && i + 1 < |code| && code[i].reloc.Fixed? && code[i + 1].reloc.Fixed?
    requires !item.reloc.Fixed? && second.reloc.Fixed?
    ensures Tracks(code[i := item][i + 1 := second], fixups + [Fixup(item.reloc, i)])
  {
    var code', f := code[i := item][i + 1 := second], Fixup(item.reloc, i);
    forall q | 0 <= q < |code'| && !code'[q].reloc.Fixed?
      ensures Fixup(code'[q].reloc, q) in fixups + [f]
    {
      if q != i {
        assert Fixup(code[q].reloc, q) in fixups;
      }
    }
  }

  const LOAD_STR := Item(Insn(LdMapValue, 1, 0, 0, 0), MapFd(PrinterMap))

  /** The printer holds the string at this offset. */
  predicate KnownAt(msgs: seq<P.Msg>, str: string, offset: int) {
    exists j :: 0 <= j < |msgs| && msgs[j].str == str && msgs[j].offset == offset
  }

  /** The first `upTo` string loads of a stub at `at` load the printer's copy of their string. */
  predicate Strings(code: seq<Item>, at: nat, b: StubBody, upTo: nat, msgs: seq<P.Msg>)
    requires upTo <= |b.strs|
  {
    forall k :: 0 <= k < upTo ==> StringAt(code, at + b.strs[k].insn, b.strs[k].str, msgs)
  }

  predicate StringAt(code: seq<Item>, i: nat, str: string, msgs: seq<P.Msg>) {
    && i + 1 < |code| && code[i] == LOAD_STR
    && code[i + 1] == Second(code[i + 1].insn.imm) && KnownAt(msgs, str, code[i + 1].insn.imm)
  }

  lemma StringsGrow(code: seq<Item>, code': seq<Item>, at: nat, b: StubBody, msgs: seq<P.Msg>, msgs': seq<P.Msg>)
    requires Strings(code, at, b, |b.strs|, msgs) && code <= code' && msgs <= msgs'
    ensures Strings(code', at, b, |b.strs|, msgs')
  {
    forall k | 0 <= k < |b.strs|
      ensures StringAt(code', at + b.strs[k].insn, b.strs[k].str, msgs')
    {
      assert StringAt(code, at + b.strs[k].insn, b.strs[k].str, msgs);
      KnownGrows(msgs, msgs', b.strs[k].str, code[at + b.strs[k].insn + 1].insn.imm);
    }
  }

  lemma KnownGrows(msgs: seq<P.Msg>, msgs': seq<P.Msg>, str: string, offset: int)
    requires KnownAt(msgs, str, offset) && msgs <= msgs'
    ensures KnownAt(msgs', str, offset)
  {
    var j :| 0 <= j < |msgs| && msgs[j].str == str && msgs[j].offset == offset;
    assert msgs'[j] == msgs[j];
  }

  /** Rewriting one load leaves the others as they are. */
  lemma StringsPatched(code: seq<Item>, at: nat, b: StubBody, k: nat, offset: int, msgs: seq<P.Msg>, msgs': seq<P.Msg>)
    requires StubOk(b) && k < |b.strs| && at + |b.insns| <= |code| && Strings(code, at, b, k, msgs) && msgs <= msgs'
    requires KnownAt(msgs', b.strs[k].str, offset)
    ensures var i := at + b.strs[k].insn; Strings(code[i := LOAD_STR][i + 1 := Second(offset)], at, b, k + 1, msgs')
  {
    var i := at + b.strs[k].insn;
    var code' := code[i := LOAD_STR][i + 1 := Second(offset)];
    forall j | 0 <= j < k + 1
      ensures StringAt(code', at + b.strs[j].insn, b.strs[j].str, msgs')
    {
      if j < k {
        assert StringAt(code, at + b.strs[j].insn, b.strs[j].str, msgs);
        KnownGrows(msgs, msgs', b.strs[j].str, code[at + b.strs[j].insn + 1].insn.imm);
      }
    }
  }

  /** Rewrite one string load of a placed stub. */
  method PatchString(p: Program, at: nat, b: StubBody, k: nat, offset: nat)
    requires p.Valid() && StubOk(b) && k < |b.strs| && Placed(p.code, at, b, k)
    modifies p
    ensures var i := at + b.strs[k].insn; i + 1 < |old(p.code)| && p.code == old(p.code)[i := LOAD_STR][i + 1 := Second(offset)]
    ensures p.Valid() && p.layout == old(p.layout) && |p.code| == |old(p.code)|
    ensures Placed(p.code, at, b, k + 1)
    ensures forall i :: 0 <= i < at ==> p.code[i] == old(p.code)[i]
    ensures old(p.fixups) <= p.fixups
  {
    var i := at + b.strs[k].insn;
    assert Untouched(b, k, b.strs[k].insn) && Untouched(b, k, b.strs[k].insn + 1);
    assert p.code[at + b.strs[k].insn] == Item(b.insns[b.strs[k].insn], Fixed);
    assert p.code[at + (b.strs[k].insn + 1)] == Item(b.insns[b.strs[k].insn + 1], Fixed);
    TracksLoad(p.code, p.fixups, i, LOAD_STR, Second(offset));
    ghost var before := p.code;
    p.img := p.img[i := LOAD_STR.insn][i + 1 := Second(offset).insn];
    p.fixups := p.fixups + [Fixup(MapFd(PrinterMap), i)];
    p.code := p.code[i := LOAD_STR][i + 1 := Second(offset)];
    PlacedPatched(before, at, b, k, offset);
    assert p.img == Bare(p.code);
  }

  lemma PlacedPatched(code: seq<Item>, at: nat, b: StubBody, k: nat, offset: nat)
    requires StubOk(b) && k < |b.strs| && Placed(code, at, b, k)
    ensures var i := at + b.strs[k].insn;
            i + 1 < |code| && Placed(code[i := LOAD_STR][i + 1 := Second(offset)], at, b, k + 1)
  {
    var i := at + b.strs[k].insn;
    var code' := code[i := LOAD_STR][i + 1 := Second(offset)];
    forall j | 0 <= j < |b.insns| && Untouched(b, k + 1, j)
      ensures code'[at + j] == Item(b.insns[j], Fixed)
    {
      assert Untouched(b, k, j);
    }
    forall j | 0 <= j < k + 1
      ensures code'[at + b.strs[j].insn].insn.op.LdMapValue? && code'[at + b.strs[j].insn].reloc == MapFd(PrinterMap)
    {
    }
  }

  lemma FreshlyPlaced(c0: seq<Item>, b: StubBody)
    requires StubOk(b)
    ensures Placed(c0 + seq(|b.insns|, i requires 0 <= i < |b.insns| => Item(b.insns[i], Fixed)), |c0|, b, 0)
  {
  }

  /** Emit a stub's instructions, then rewrite its string loads. */
  method AppendStub(p: Program, printer: P.Printer, b: StubBody)
    requires p.Valid() && StubOk(b) && printer.Valid()
    modifies p, printer
    ensures p.Valid() && printer.Valid() && p.layout == old(p.layout)
    ensures |p.code| == |old(p.code)| + |b.insns| && p.code[..|old(p.code)|] == old(p.code)
    ensures Placed(p.code, |old(p.code)|, b, |b.strs|)
    ensures Strings(p.code, |old(p.code)|, b, |b.strs|, printer.msgs) && old(printer.msgs) <= printer.msgs
    ensures old(p.fixups) <= p.fixups
  {
    hide Strings;
    ghost var c0 := p.code;
    var at := |p.img|;
    var items := seq(|b.insns|, i requires 0 <= i < |b.insns| => Item(b.insns[i], Fixed));
    EmitPlain(p, items);
    FreshlyPlaced(c0, b);
    assert Strings(p.code, at, b, 0, printer.msgs) by { NoStrings(p.code, at, b, printer.msgs); }
    for k := 0 to |b.strs|
      invariant p.Valid() && printer.Valid() && p.layout == old(p.layout)
      invariant |p.code| == |c0| + |b.insns| && Placed(p.code, at, b, k)
      invariant Strings(p.code, at, b, k, printer.msgs) && old(printer.msgs) <= printer.msgs
      invariant forall i :: 0 <= i < |c0| ==> p.code[i] == c0[i]
      invariant old(p.fixups) <= p.fixups
    {
      ghost var msgs, code := printer.msgs, p.code;
      P.AddedKeeps(msgs, b.strs[k].str);
      var m := printer.AddMsg(b.strs[k].str);
      assert KnownAt(printer.msgs, b.strs[k].str, printer.msgs[m].offset);
      PatchString(p, at, b, k, printer.msgs[m].offset);
      StringsPatched(code, at, b, k, printer.msgs[m].offset, msgs, printer.msgs);
    }
  }

  lemma NoStrings(code: seq<Item>, at: nat, b: StubBody, msgs: seq<P.Msg>)
    ensures Strings(code, at, b, 0, msgs)
  {
  }

  method EmitPlain(p: Program, items: seq<Item>)
    requires p.Valid() && forall i :: 0 <= i < |items| ==> items[i].reloc.Fixed?
    modifies p
    ensures p.Valid() && p.layout == old(p.layout) && p.code == old(p.code) + items && p.fixups == old(p.fixups)
  {
    for i := 0 to |items|
      invariant p.Valid() && p.layout == old(p.layout) && p.fixups == old(p.fixups)
      invariant p.code == old(p.code) + items[..i]
    {
      p.EmitFixed(items[i]);
      assert items[..i + 1] == items[..i] + [items[i]];
    }
    assert items[..|items|] == items;
  }

  const ALL_STUBS := {ParseIpv6Eh, ParseIpv6Nh, UpdateCounters, Log}

  predicate CalledIn(code: seq<Item>, s: Stub) {
    exists q :: 0 <= q < |code| && code[q].reloc == StubCall(s)
  }

  predicate StubsOk(stubs: map<Stub, StubBody>) {
    forall s :: s in stubs ==> StubOk(stubs[s])
  }

  /** Instruction i belongs to a placed stub. */
  predicate InStub(layout: Layout, stubs: map<Stub, StubBody>, i: int) {
    exists s :: s in layout && s in stubs && layout[s] <= i < layout[s] + |stubs[s].insns|
  }

  predicate Apart(layout: Layout, stubs: map<Stub, StubBody>, s: Stub, t: Stub)
    requires s in layout && t in layout && s in stubs && t in stubs
  {
    layout[s] + |stubs[s].insns| <= layout[t] || layout[t] + |stubs[t].insns| <= layout[s]
  }

  predicate StubHere(code: seq<Item>, n0: nat, at: nat, b: StubBody)
    requires StubOk(b)
  {
    n0 <= at && Placed(code, at, b, |b.strs|)
  }

  /**
   Every placed stub is one that the program calls, lies behind the program and overlaps no
   other, and everything behind the program belongs to a stub.
   */
  predicate LaidOut(code: seq<Item>, n0: nat, layout: Layout, stubs: map<Stub, StubBody>) {
    && StubsOk(stubs) && n0 <= |code| && layout.Keys <= stubs.Keys
    && (forall s :: s in layout ==> CalledIn(code[..n0], s) && StubHere(code, n0, layout[s], stubs[s]))
    && (forall s, t :: s in layout && t in layout && s != t ==> Apart(layout, stubs, s, t))
    && (forall i :: n0 <= i < |code| ==> InStub(layout, stubs, i))
  }

  lemma LaidOutDistinct(code: seq<Item>, n0: nat, layout: Layout, stubs: map<Stub, StubBody>)
    requires LaidOut(code, n0, layout, stubs)
    ensures Distinct(layout)
  {
    hide StubHere, CalledIn;
    forall s, t | s in layout && t in layout && layout[s] == layout[t]
      ensures s == t
    {
      assert s == t || Apart(layout, stubs, s, t);
    }
  }

  /** One more stub at the end keeps the layout. */
  lemma LaidOutAppend(code: seq<Item>, code': seq<Item>, n0: nat, layout: Layout, stubs: map<Stub, StubBody>, s: Stub)
    requires LaidOut(code, n0, layout, stubs) && s in stubs && s !in layout && CalledIn(code[..n0], s)
    requires |code'| == |code| + |stubs[s].insns| && code'[..|code|] == code
    requires Placed(code', |code|, stubs[s], |stubs[s].strs|)
    ensures LaidOut(code', n0, layout[s := |code|], stubs)
  {
    hide Placed, CalledIn, StubOk;
    var layout' := layout[s := |code|];
    assert code'[..n0] == code[..n0];
    forall t | t in layout'
      ensures StubHere(code', n0, layout'[t], stubs[t])
    {
      if t != s {
        PlacedPrefix(code, code', layout[t], stubs[t]);
      }
    }
    forall t, u | t in layout' && u in layout' && t != u
      ensures Apart(layout', stubs, t, u)
    {
      if t != s {
        StubEnds(code, n0, layout[t], stubs[t]);
      }
      if u != s {
        StubEnds(code, n0, layout[u], stubs[u]);
      }
      if t != s && u != s {
        assert Apart(layout, stubs, t, u);
      }
    }
    forall i | n0 <= i < |code'|
      ensures InStub(layout', stubs, i)
    {
      if i < |code| {
        assert InStub(layout, stubs, i);
        var t :| t in layout && t in stubs && layout[t] <= i < layout[t] + |stubs[t].insns|;
        assert t in layout' && layout'[t] == layout[t];
      } else {
        assert layout'[s] <= i < layout'[s] + |stubs[s].insns|;
      }
    }
  }

  lemma StubEnds(code: seq<Item>, n0: nat, at: nat, b: StubBody)
    requires StubOk(b) && StubHere(code, n0, at, b)
    ensures at + |b.insns| <= |code|
  {
  }

  lemma PlacedPrefix(code: seq<Item>, code': seq<Item>, at: nat, b: StubBody)
    requires StubOk(b) && Placed(code, at, b, |b.strs|) && |code| <= |code'| && code'[..|code|] == code
    ensures Placed(code', at, b, |b.strs|)
  {
    assert forall i :: 0 <= i < |code| ==> code'[i] == code'[..|code|][i];
  }

  /** Every placed stub loads its strings from the printer. */
  predicate AllStrings(code: seq<Item>, layout: Layout, stubs: map<Stub, StubBody>, msgs: seq<P.Msg>) {
    forall s :: s in layout && s in stubs ==> Strings(code, layout[s], stubs[s], |stubs[s].strs|, msgs)
  }

  lemma AllStringsAppend(code: seq<Item>, code': seq<Item>, layout: Layout, stubs: map<Stub, StubBody>, s: Stub,
                         msgs: seq<P.Msg>, msgs': seq<P.Msg>)
    requires AllStrings(code, layout, stubs, msgs) && code <= code' && msgs <= msgs' && s in stubs
    requires Strings(code', |code|, stubs[s], |stubs[s].strs|, msgs')
    ensures AllStrings(code', layout[s := |code|], stubs, msgs')
  {
    hide Strings;
    forall t | t in layout[s := |code|] && t in stubs
      ensures Strings(code', layout[s := |code|][t], stubs[t], |stubs[t].strs|, msgs')
    {
      if t != s {
        StringsGrow(code, code', layout[t], stubs[t], msgs, msgs');
      }
    }
  }

  /** The walk over the list that the macro bf_list_foreach spells out: the next node is fixed early. */
  predicate StubsDone(fixups: seq<Fixup>, upTo: nat, layout: Layout) {
    forall j :: 0 <= j < upTo && j < |fixups| && fixups[j].kind.StubCall? ==> fixups[j].kind.stub in layout
  }

  /**
   _bf_program_generate_elfstubs(): walk the fixups; the first call of a stub places it. Nodes
   appended meanwhile are string fixups, so it does not matter whether the walk meets them.
   */
  method GenElfstubs(p: Program, printer: P.Printer, stubs: map<Stub, StubBody>) returns (ok: bool)
    requires p.Valid() && printer.Valid() && StubsOk(stubs) && p.layout == map[]
    modifies p, printer
    ensures p.Valid() && printer.Valid()
    ensures ok == forall s :: CalledIn(old(p.code), s) ==> s in stubs
    ensures ok ==> old(p.code) <= p.code && LaidOut(p.code, |old(p.code)|, p.layout, stubs)
    ensures ok ==> forall s :: s in p.layout <==> CalledIn(old(p.code), s)
    ensures ok ==> AllStrings(p.code, p.layout, stubs, printer.msgs)
  {
    hide LaidOut, Tracks, AllBlank, Placed, AllStrings, Strings;
    ghost var c0, n0, f0 := p.code, |p.code|, p.fixups;
    TracksCalls(c0, f0);
    NothingLaidOut(c0, stubs);
    assert AllStrings(p.code, p.layout, stubs, printer.msgs) by { NoStubsNoStrings(p.code, stubs, printer.msgs); }
    var i, alive, hasNext := 0, |p.fixups| > 0, |p.fixups| > 1;
    assert c0[..n0] == c0;
    while alive
      invariant p.Valid() && printer.Valid() && n0 <= |p.code| && p.code[..n0] == c0 && f0 <= p.fixups
      invariant LaidOut(p.code, n0, p.layout, stubs) && AllStrings(p.code, p.layout, stubs, printer.msgs)
      invariant alive ==> i < |p.fixups|
      invariant alive && hasNext ==> i + 1 < |p.fixups|
      invariant alive && !hasNext ==> i + 1 >= |f0|
      invariant !alive ==> i >= |f0|
      invariant StubsDone(f0, i, p.layout)
      decreases ALL_STUBS - p.layout.Keys, |p.fixups| - i, alive
    {
      var f := p.fixups[i];
      if f.kind.StubCall? && f.kind.stub !in p.layout {
        var s := f.kind.stub;
        CallOfFixup(p.code, p.fixups, p.layout, stubs, n0, i);
        if s !in stubs {
          return false;
        }
        var off := |p.img|;
        ghost var before, layout, msgs := p.code, p.layout, printer.msgs;
        AppendStub(p, printer, stubs[s]);
        LaidOutAppend(before, p.code, n0, layout, stubs, s);
        AllStringsAppend(before, p.code, layout, stubs, s, msgs, printer.msgs);
        assert p.code[..n0] == p.code[..|before|][..n0];
        p.layout := p.layout[s := off];
        EveryStub(s);
        assert s in ALL_STUBS - layout.Keys;
      }
      i, alive, hasNext := i + 1, hasNext, hasNext && i + 2 < |p.fixups|;
    }
    LaidOutCalls(p.code, n0, p.layout, stubs);
    ok := true;
  }

  /** Calls of the program and call fixups are the same thing. */
  lemma TracksCalls(code: seq<Item>, fixups: seq<Fixup>)
    requires Tracks(code, fixups)
    ensures forall s :: CalledIn(code, s) <==> exists j :: 0 <= j < |fixups| && fixups[j].kind == StubCall(s)
  {
    forall s
      ensures CalledIn(code, s) <==> exists j :: 0 <= j < |fixups| && fixups[j].kind == StubCall(s)
    {
      if CalledIn(code, s) {
        var q :| 0 <= q < |code| && code[q].reloc == StubCall(s);
        var j :| 0 <= j < |fixups| && fixups[j] == Fixup(StubCall(s), q);
      }
      if exists j :: 0 <= j < |fixups| && fixups[j].kind == StubCall(s) {
        var j :| 0 <= j < |fixups| && fixups[j].kind == StubCall(s);
        assert code[fixups[j].insn].reloc == StubCall(s);
      }
    }
  }

  lemma NothingLaidOut(code: seq<Item>, stubs: map<Stub, StubBody>)
    requires StubsOk(stubs)
    ensures LaidOut(code, |code|, map[], stubs)
  {
  }

  lemma NoStubsNoStrings(code: seq<Item>, stubs: map<Stub, StubBody>, msgs: seq<P.Msg>)
    ensures AllStrings(code, map[], stubs, msgs)
  {
  }

  lemma LaidOutCalls(code: seq<Item>, n0: nat, layout: Layout, stubs: map<Stub, StubBody>)
    requires LaidOut(code, n0, layout, stubs)
    ensures n0 <= |code| && forall s :: s in layout ==> CalledIn(code[..n0], s) && s in stubs
  {
  }

  /** A call fixup belongs to the program itself: stubs contain none. */
  lemma CallOfFixup(code: seq<Item>, fixups: seq<Fixup>, layout: Layout, stubs: map<Stub, StubBody>, n0: nat, i: nat)
    requires Tracks(code, fixups) && LaidOut(code, n0, layout, stubs) && i < |fixups| && fixups[i].kind.StubCall?
    ensures n0 <= |code| && CalledIn(code[..n0], fixups[i].kind.stub)
  {
    hide CalledIn, LaidOut;
    NoCallsBehind(code, n0, layout, stubs);
    var q := fixups[i].insn;
    assert code[..n0][q].reloc == fixups[i].kind;
    CalledAt(code[..n0], q);
  }

  lemma NoCallsBehind(code: seq<Item>, n0: nat, layout: Layout, stubs: map<Stub, StubBody>)
    requires LaidOut(code, n0, layout, stubs)
    ensures n0 <= |code| && forall q :: n0 <= q < |code| ==> !code[q].reloc.StubCall? && !code[q].reloc.NextRule?
  {
    forall q | n0 <= q < |code|
      ensures !code[q].reloc.StubCall? && !code[q].reloc.NextRule?
    {
      assert InStub(layout, stubs, q);
      var t :| t in layout && t in stubs && layout[t] <= q < layout[t] + |stubs[t].insns|;
      assert StubHere(code, n0, layout[t], stubs[t]);
    }
  }

  lemma EveryStub(s: Stub)
    ensures s in ALL_STUBS
  {
    match s
    case _ =>
  }

  lemma CalledAt(code: seq<Item>, q: nat)
    requires q < |code| && code[q].reloc.StubCall?
    ensures CalledIn(code, code[q].reloc.stub)
  {
  }
}
