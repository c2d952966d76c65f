/**
 The printer collects the messages a program can print into one buffer that is loaded as a
 map value; instructions refer to a message by its offset.
 */
module Printer {

  const NUL := '\0'

  datatype Msg = Msg(offset: nat, len: nat, str: string)

  /** All messages, each followed by its nul character. */
  function Flat(msgs: seq<Msg>): string {
    if msgs == [] then [] else Flat(msgs[..|msgs| - 1]) + msgs[|msgs| - 1].str + [NUL]
  }

  /** Messages lie one after the other, without gap or overlap. */
  predicate Contiguous(msgs: seq<Msg>) {
    forall i :: 0 <= i < |msgs| ==> msgs[i].len == |msgs[i].str| + 1 && msgs[i].offset == |Flat(msgs[..i])|
  }

  predicate NoRepeats(msgs: seq<Msg>) {
    forall i, j :: 0 <= i < j < |msgs| ==> msgs[i].str != msgs[j].str
  }

  lemma FlatAppend(msgs: seq<Msg>, m: Msg)
    ensures Flat(msgs + [m]) == Flat(msgs) + m.str + [NUL]
  {
    assert (msgs + [m])[..|msgs|] == msgs;
  }

  lemma {:induction false} FlatPrefix(msgs: seq<Msg>, i: nat)
    requires i <= |msgs|
    ensures Flat(msgs[..i]) <= Flat(msgs)
    decreases |msgs|
  {
    if i == |msgs| {
      assert msgs[..i] == msgs;
    } else {
      var front := msgs[..|msgs| - 1];
      assert front[..i] == msgs[..i];
      FlatPrefix(front, i);
    }
  }

  lemma ContiguousAppend(msgs: seq<Msg>, m: Msg)
    requires Contiguous(msgs) && m.len == |m.str| + 1 && m.offset == |Flat(msgs)|
    ensures Contiguous(msgs + [m])
  {
    hide Flat;
    var next := msgs + [m];
    forall j | 0 <= j < |next|
      ensures next[j].len == |next[j].str| + 1 && next[j].offset == |Flat(next[..j])|
    {
      assert next[..j] == msgs[..j];
      assert msgs[..|msgs|] == msgs;
    }
  }

  lemma SliceOfPrefix(whole: string, part: string, a: nat, b: nat)
    requires part <= whole && a <= b <= |part|
    ensures whole[a..b] == part[a..b]
  {
  }

  /** In the concatenation, every message with its nul sits at its recorded offset. */
  lemma MessageAtOffset(msgs: seq<Msg>, i: nat)
    requires Contiguous(msgs) && i < |msgs|
    ensures var m := msgs[i];
            m.offset + m.len <= |Flat(msgs)| && Flat(msgs)[m.offset..m.offset + m.len] == m.str + [NUL]
  {
    hide Flat;
    var m := msgs[i];
    assert msgs[..i + 1] == msgs[..i] + [m];
    FlatAppend(msgs[..i], m);
    FlatPrefix(msgs, i + 1);
    var part := Flat(msgs[..i]) + m.str + [NUL];
    assert part[m.offset..m.offset + m.len] == m.str + [NUL];
    SliceOfPrefix(Flat(msgs), part, m.offset, m.offset + m.len);
  }

  class Printer {
    var msgs: seq<Msg>

    ghost predicate Valid()
      reads this
    {
      Contiguous(msgs) && NoRepeats(msgs)
    }

    constructor ()
      ensures Valid() && msgs == []
    {
      msgs := [];
    }

    /** _bf_printer_total_size(): the end of the last message. */
    function TotalSize(): (n: nat)
      requires Valid()
      reads this
      ensures n == |Flat(msgs)|
    {
      if msgs == [] then 0
      else
        assert msgs == msgs[..|msgs| - 1] + [msgs[|msgs| - 1]];
        FlatAppend(msgs[..|msgs| - 1], msgs[|msgs| - 1]);
        msgs[|msgs| - 1].offset + msgs[|msgs| - 1].len
    }

    /** bf_printer_add_msg(): reuse an identical message, else append. */
    method AddMsg(str: string) returns (i: nat)
      requires Valid()
      modifies this
      ensures Valid()
      ensures i < |msgs| && msgs[i].str == str
      ensures msgs == Added(old(msgs), str)
    {
      hide Flat, Contiguous;
      i := 0;
      while i < |msgs|
        invariant i <= |msgs| && msgs == old(msgs)
        invariant forall j :: 0 <= j < i ==> msgs[j].str != str
      {
        if msgs[i].str == str {
          assert msgs[i] in msgs;
          return;
        }
        i := i + 1;
      }
      var m := Msg(TotalSize(), |str| + 1, str);
      ContiguousAppend(msgs, m);
      msgs := msgs + [m];
    }

    /** bf_printer_assemble(): copy every message to its offset. */
    method Assemble() returns (buf: array<char>)
      requires Valid()
      ensures fresh(buf)
      ensures buf[..] == if msgs == [] then [NUL] else Flat(msgs)
    {
      hide Flat;
      var total := TotalSize();
      EmptyFlat(msgs);
      if total == 0 {
        buf := new char[1](_ => NUL);
        return;
      }
      buf := new char[total](_ => NUL);
      EmptyFlat(msgs[..0]);
      for i := 0 to |msgs|
        invariant |Flat(msgs[..i])| <= total && buf.Length == total && total == |Flat(msgs)|
        invariant buf[..|Flat(msgs[..i])|] == Flat(msgs[..i])
      {
        var m := msgs[i];
        assert msgs[..i + 1] == msgs[..i] + [m];
        FlatAppend(msgs[..i], m);
        FlatPrefix(msgs, i + 1);
        CopyMessage(buf, m);
        assert buf[..m.offset + m.len] == buf[..m.offset] + buf[m.offset..m.offset + m.len];
      }
      assert msgs[..|msgs|] == msgs;
      assert buf[..] == buf[..total];
    }
  }

  lemma EmptyFlat(msgs: seq<Msg>)
    ensures Flat(msgs) == [] <==> msgs == []
  {
  }

  /** memcpy of a message with its nul character. */
  method CopyMessage(buf: array<char>, m: Msg)
    requires m.offset + m.len <= buf.Length && m.len == |m.str| + 1
    modifies buf
    ensures buf[m.offset..m.offset + m.len] == m.str + [NUL]
    ensures buf[..m.offset] == old(buf[..m.offset])
  {
    ghost var text := m.str + [NUL];
    for k := 0 to m.len
      invariant buf[m.offset..m.offset + k] == text[..k]
      invariant buf[..m.offset] == old(buf[..m.offset])
    {
      buf[m.offset + k] := if k < |m.str| then m.str[k] else NUL;
      assert buf[m.offset..m.offset + k + 1] == buf[m.offset..m.offset + k] + [buf[m.offset + k]];
    }
  }

  predicate Known(msgs: seq<Msg>, str: string) {
    exists m :: m in msgs && m.str == str
  }

  /** The printer after one addition. */
  function Added(msgs: seq<Msg>, str: string): seq<Msg> {
    if Known(msgs, str) then msgs else msgs + [Msg(|Flat(msgs)|, |str| + 1, str)]
  }

  function AddAll(msgs: seq<Msg>, strs: seq<string>): seq<Msg>
    decreases |strs|
  {
    if strs == [] then msgs else AddAll(Added(msgs, strs[0]), strs[1..])
  }

  lemma AddedKeeps(msgs: seq<Msg>, str: string)
    requires Contiguous(msgs) && NoRepeats(msgs)
    ensures msgs <= Added(msgs, str) && Contiguous(Added(msgs, str)) && NoRepeats(Added(msgs, str))
  {
    hide Flat, Contiguous;
    ContiguousAppend(msgs, Msg(|Flat(msgs)|, |str| + 1, str));
  }

  lemma {:induction false} AddAllKeeps(msgs: seq<Msg>, strs: seq<string>)
    requires Contiguous(msgs) && NoRepeats(msgs)
    ensures msgs <= AddAll(msgs, strs) && Contiguous(AddAll(msgs, strs)) && NoRepeats(AddAll(msgs, strs))
    decreases |strs|
  {
    hide Flat, Contiguous, Added, NoRepeats;
    if strs != [] {
      AddedKeeps(msgs, strs[0]);
      AddAllKeeps(Added(msgs, strs[0]), strs[1..]);
    }
  }

  /** Over any run of additions an offset, once returned, keeps denoting the same message. */
  lemma OffsetsStay(msgs: seq<Msg>, strs: seq<string>, i: nat)
    requires Contiguous(msgs) && NoRepeats(msgs) && i < |msgs|
    ensures var text := Flat(AddAll(msgs, strs));
            && msgs[i].offset + msgs[i].len <= |text|
            && text[msgs[i].offset..msgs[i].offset + msgs[i].len] == msgs[i].str + [NUL]
  {
    hide Flat, Contiguous;
    AddAllKeeps(msgs, strs);
    MessageAtOffset(AddAll(msgs, strs), i);
  }
}
