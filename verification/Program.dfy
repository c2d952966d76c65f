/**
 The program under construction: a growing image, the list of fixups still to apply, and
 where the ELF stubs were placed. The ghost field `code` is the relocatable reading of the
 image: the instructions together with what each pending fixup will write into them.
 */
module Program {
  import opened Bits
  import opened Bpf
  import opened Asm
  import opened Image
  import opened Rounding
  import Compiler

  const SHRT_MAX := 32767
  const INT_MAX := 0x7fff_ffff
  const DEFAULT_IMG_SIZE := 64

  datatype Fixup = Fixup(kind: Reloc, insn: nat)

  /** The passes over the fixup list. */
  datatype FixupType = ToNextRule | ToMap(kind: MapKind) | ToStub

  predicate OfType(reloc: Reloc, t: FixupType) {
    match t
    case ToNextRule => reloc.NextRule?
    case ToMap(k) => reloc == MapFd(k)
    case ToStub => reloc.StubCall?
  }

  /** The field a fixup writes is zero until then. */
  predicate Blank(item: Item) {
    match item.reloc
    case Fixed => true
    case NextRule => item.insn.off == 0
    case MapFd(_) => item.insn.imm == 0
    case StubCall(_) => item.insn.imm == 0
  }

  function Bare(code: seq<Item>): (img: seq<Insn>)
    ensures |img| == |code|
    ensures forall i :: 0 <= i < |code| ==> img[i] == code[i].insn
  {
    seq(|code|, i requires 0 <= i < |code| => code[i].insn)
  }

  /** Every pending field has exactly one fixup, and every fixup a pending field. */
  predicate Tracks(code: seq<Item>, fixups: seq<Fixup>) {
    && (forall j :: 0 <= j < |fixups| ==>
          fixups[j].insn < |code| && code[fixups[j].insn].reloc == fixups[j].kind && !fixups[j].kind.Fixed?)
    && (forall q :: 0 <= q < |code| && !code[q].reloc.Fixed? ==> Fixup(code[q].reloc, q) in fixups)
    && (forall i, j :: 0 <= i < j < |fixups| ==> fixups[i].insn != fixups[j].insn)
  }

  predicate AllBlank(code: seq<Item>) {
    forall i :: 0 <= i < |code| ==> Blank(code[i])
  }

  lemma TracksAppend(code: seq<Item>, fixups: seq<Fixup>, item: Item)
    requires Tracks(code, fixups)
    ensures Tracks(code + [item], if item.reloc.Fixed? then fixups else fixups + [Fixup(item.reloc, |code|)])
  {
  }

  /** Applying fixup i clears its field and leaves the others tracked. */
  lemma TracksApply(code: seq<Item>, fixups: seq<Fixup>, i: nat, insn: Insn)
    requires Tracks(code, fixups) && i < |fixups|
    ensures Tracks(code[fixups[i].insn := Item(insn, Fixed)], fixups[..i] + fixups[i + 1..])
  {
    var p, rest := fixups[i].insn, fixups[..i] + fixups[i + 1..];
    var code' := code[p := Item(insn, Fixed)];
    forall j | 0 <= j < |rest|
      ensures rest[j].insn < |code'| && code'[rest[j].insn].reloc == rest[j].kind && !rest[j].kind.Fixed?
    {
      var k := if j < i then j else j + 1;
      assert rest[j] == fixups[k];
    }
    forall q | 0 <= q < |code'| && !code'[q].reloc.Fixed?
      ensures Fixup(code'[q].reloc, q) in rest
    {
      var f := Fixup(code[q].reloc, q);
      var k :| 0 <= k < |fixups| && fixups[k] == f;
      assert rest[if k < i then k else k - 1] == f;
    }
  }

  function ToInt16(n: int): int {
    if n % TWO16 < TWO16 / 2 then n % TWO16 else n % TWO16 - TWO16
  }

  /** The instruction after its fixup, or nothing when the target is out of reach. */
  datatype Value = Unreachable | Value(n: int)

  function FixupValue(link: Link, layout: Layout, size: nat, f: Fixup): Value {
    match f.kind
    case NextRule => Value(size - f.insn - 1)
    case MapFd(kind) => Value(link.Fd(kind))
    case StubCall(stub) =>
      if stub in layout && 0 <= layout[stub] - f.insn - 1 < INT_MAX then Value(layout[stub] - f.insn - 1)
      else Unreachable
    case Fixed => Unreachable
  }

  /** An item after a pass of the given type. */
  function Fixed1(link: Link, layout: Layout, size: nat, t: FixupType, item: Item, q: nat): Item {
    if !OfType(item.reloc, t) then item
    else
      var v := FixupValue(link, layout, size, Fixup(item.reloc, q));
      if v.Unreachable? then item
      else Item(if t.ToNextRule? then item.insn.(off := v.n) else item.insn.(imm := v.n), Bpf.Fixed)
  }

  predicate Reachable(link: Link, layout: Layout, code: seq<Item>, t: FixupType) {
    forall q :: 0 <= q < |code| && OfType(code[q].reloc, t) ==>
      FixupValue(link, layout, |code|, Fixup(code[q].reloc, q)).Value?
  }

  function FixedAll(link: Link, layout: Layout, t: FixupType, code: seq<Item>): (r: seq<Item>)
    ensures |r| == |code|
    ensures forall q :: 0 <= q < |code| ==> r[q] == Fixed1(link, layout, |code|, t, code[q], q)
  {
    seq(|code|, q requires 0 <= q < |code| => Fixed1(link, layout, |code|, t, code[q], q))
  }

  class Program {
    var img: seq<Insn>
    var imgCap: nat
    var fixups: seq<Fixup>
    var layout: Layout
    ghost var code: seq<Item>

    ghost predicate Valid()
      reads this
    {
      img == Bare(code) && Tracks(code, fixups) && AllBlank(code) && |img| <= imgCap
    }

    constructor ()
      ensures Valid() && code == [] && layout == map[]
    {
      img, imgCap, fixups, layout, code := [], 0, [], map[], [];
    }

    /** bf_program_grow_img() */
    method GrowImg()
      modifies this`imgCap
      ensures imgCap > old(imgCap)
    {
      RoundingGrows(2 * imgCap);
      imgCap := if imgCap == 0 then DEFAULT_IMG_SIZE else RoundNextPowerOf2(2 * imgCap);
    }

    /** bf_program_emit() and bf_program_emit_fixup(): append, recording what is left to fix up. */
    method Emit(item: Item)
      requires Valid() && Blank(item)
      modifies this
      ensures Valid() && code == old(code) + [item] && layout == old(layout)
      ensures fixups == old(fixups) + if item.reloc.Fixed? then [] else [Fixup(item.reloc, |old(code)|)]
    {
      hide Tracks, Blank;
      if |img| == imgCap {
        GrowImg();
      }
      TracksAppend(code, fixups, item);
      if !item.reloc.Fixed? {
        fixups := fixups + [Fixup(item.reloc, |img|)];
      }
      img := img + [item.insn];
      code := code + [item];
      assert img == Bare(code);
    }

    /** Emitting an instruction that needs no fixup leaves the list alone. */
    method EmitFixed(item: Item)
      requires Valid() && item.reloc.Fixed?
      modifies this
      ensures Valid() && code == old(code) + [item] && layout == old(layout) && fixups == old(fixups)
    {
      Emit(item);
    }

    /** A run of EMIT statements. */
    method EmitAll(items: seq<Item>)
      requires Valid() && AllBlank(items)
      modifies this
      ensures Valid() && code == old(code) + items && layout == old(layout)
    {
      for i := 0 to |items|
        invariant Valid() && code == old(code) + items[..i] && layout == old(layout)
      {
        Emit(items[i]);
        assert items[..i + 1] == items[..i] + [items[i]];
      }
      assert items[..|items|] == items;
    }

    /** bf_jmpctx_get(): emit a jump whose offset is set later. */
    method JmpGet(item: Item) returns (idx: nat)
      requires Valid() && item.reloc.Fixed?
      modifies this
      ensures Valid() && code == old(code) + [item] && idx == |old(code)| && layout == old(layout)
    {
      idx := |img|;
      Emit(item);
    }

    /** bf_jmpctx_cleanup(): point the jump at the next instruction to be emitted. */
    method JmpCleanup(idx: nat)
      requires Valid() && idx < |code| && code[idx].reloc.Fixed?
      modifies this
      ensures Valid() && layout == old(layout)
      ensures var item := old(code)[idx];
              code == old(code)[idx := item.(insn := item.insn.(off := ToInt16(|old(code)| - idx - 1)))]
    {
      var off := |img| - idx - 1;
      img := img[idx := img[idx].(off := ToInt16(off))];
      code := code[idx := code[idx].(insn := code[idx].insn.(off := ToInt16(off)))];
    }

    /**
     _bf_program_fixup(): walk the list, write the value of every fixup of the type into its
     instruction and drop the fixup; stop with an error at the first unreachable target.
     */
    method ApplyFixups(t: FixupType, link: Link) returns (ok: bool)
      requires Valid()
      requires t.ToNextRule? ==>
                 forall q :: 0 <= q < |code| && code[q].reloc.NextRule? ==> |code| - q - 1 < SHRT_MAX
      modifies this
      ensures Valid() && layout == old(layout) && |code| == |old(code)|
      ensures ok == Reachable(link, layout, old(code), t)
      ensures ok ==> code == FixedAll(link, layout, t, old(code))
    {
      ghost var c0 := code;
      ghost var n := |code|;
      var i := 0;
      while i < |fixups|
        invariant i <= |fixups| && Valid() && layout == old(layout) && |code| == n
        invariant forall q :: 0 <= q < n ==> code[q] == c0[q] ||
                                             (OfType(c0[q].reloc, t) && code[q] == Fixed1(link, layout, n, t, c0[q], q)
                                              && code[q].reloc.Fixed?)
        invariant forall j :: 0 <= j < i ==> !OfType(fixups[j].kind, t)
        decreases |fixups| - i
      {
        var f := fixups[i];
        if !OfType(f.kind, t) {
          i := i + 1;
        } else {
          var v := FixupValue(link, layout, |img|, f);
          assert code[f.insn] == c0[f.insn];
          if v.Unreachable? {
            assert OfType(c0[f.insn].reloc, t);
            return false;
          }
          assert Blank(code[f.insn]);
          var insn := if t.ToNextRule? then img[f.insn].(off := v.n) else img[f.insn].(imm := v.n);
          TracksApply(code, fixups, i, insn);
          img := img[f.insn := insn];
          code := code[f.insn := Item(insn, Bpf.Fixed)];
          fixups := fixups[..i] + fixups[i + 1..];
        }
      }
      forall q | 0 <= q < n
        ensures code[q] == Fixed1(link, layout, n, t, c0[q], q)
        ensures OfType(c0[q].reloc, t) ==> FixupValue(link, layout, n, Fixup(c0[q].reloc, q)).Value?
      {
        if OfType(c0[q].reloc, t) && code[q] == c0[q] {
          assert false;
        }
      }
      ok := true;
    }
  }
}
