/**
 Copying a header field into the scratch area with load and store pairs of 8, 4, 2 and 1
 bytes. Only the starting offset is tested for alignment; still every store is aligned, and
 together the pairs copy every byte once and nothing else.
 */
module Payload {
  import opened Bits
  import opened Bpf
  import opened Asm

  /** A load from the header and the store of the same size that follows it. */
  datatype Move = Move(size: Size, src: nat, dst: nat)

  function CopyWidth(offset: nat, left: nat): Size
    requires left > 0
  {
    if offset % 8 == 0 && left >= 8 then DW
    else if offset % 4 == 0 && left >= 4 then W
    else if offset % 2 == 0 && left >= 2 then H
    else B
  }

  /** Byte by byte: what the moves have to amount to. */
  function CopyBytes(mem: map<int, byte>, hdr: seq<byte>, src: nat, dst: nat, n: nat): map<int, byte>
    requires src + n <= |hdr|
  {
    if n == 0 then mem else CopyBytes(mem, hdr, src, dst, n - 1)[dst + n - 1 := hdr[src + n - 1]]
  }

  function Run(moves: seq<Move>, hdr: seq<byte>, mem: map<int, byte>): map<int, byte>
    requires forall m :: m in moves ==> m.src + m.size.Bytes() <= |hdr|
  {
    if moves == [] then mem
    else
      var last := moves[|moves| - 1];
      CopyBytes(Run(moves[..|moves| - 1], hdr, mem), hdr, last.src, last.dst, last.size.Bytes())
  }

  lemma {:induction false} CopyJoins(mem: map<int, byte>, hdr: seq<byte>, src: nat, dst: nat, a: nat, b: nat)
    requires src + a + b <= |hdr|
    ensures CopyBytes(CopyBytes(mem, hdr, src, dst, a), hdr, src + a, dst + a, b) == CopyBytes(mem, hdr, src, dst, a + b)
    decreases b
  {
    if b > 0 {
      CopyJoins(mem, hdr, src, dst, a, b - 1);
    }
  }

  /** Where every byte of the result comes from. */
  lemma {:induction false} CopiedBytes(mem: map<int, byte>, hdr: seq<byte>, src: nat, dst: nat, n: nat, at: int)
    requires src + n <= |hdr|
    ensures var r := CopyBytes(mem, hdr, src, dst, n);
            if dst <= at < dst + n then at in r && r[at] == hdr[src + at - dst]
            else (at in r <==> at in mem) && (at in mem ==> r[at] == mem[at])
    decreases n
  {
    if n > 0 {
      CopiedBytes(mem, hdr, src, dst, n - 1, at);
    }
  }

  predicate Fits(m: Move, limit: nat) {
    m.src + m.size.Bytes() <= limit && m.dst % m.size.Bytes() == 0
  }

  predicate AllFit(moves: seq<Move>, limit: nat) {
    forall m :: m in moves ==> Fits(m, limit)
  }

  /** The destination stays aligned to whatever width the starting offset still allows. */
  predicate InStep(offset: nat, done: nat, left: nat) {
    && (offset % 8 == 0 && left >= 8 ==> done % 8 == 0)
    && (offset % 4 == 0 && left >= 4 ==> done % 4 == 0)
    && (offset % 2 == 0 && left >= 2 ==> done % 2 == 0)
  }

  lemma StartsInStep(offset: nat, left: nat)
    ensures InStep(offset, 0, left)
  {
  }

  lemma StepBy8(offset: nat, done: nat, left: nat)
    requires InStep(offset, done, left) && offset % 8 == 0 && left >= 8
    ensures (offset + done) % 8 == 0 && InStep(offset, done + 8, left - 8)
  {
  }

  lemma StepBy4(offset: nat, done: nat, left: nat)
    requires InStep(offset, done, left) && offset % 4 == 0 && left >= 4 && !(offset % 8 == 0 && left >= 8)
    ensures (offset + done) % 4 == 0 && InStep(offset, done + 4, left - 4)
  {
  }

  lemma StepBy2(offset: nat, done: nat, left: nat)
    requires InStep(offset, done, left) && offset % 2 == 0 && left >= 2 && !(offset % 4 == 0 && left >= 4)
    ensures (offset + done) % 2 == 0 && InStep(offset, done + 2, left - 2)
  {
  }

  lemma StaysInStep(offset: nat, done: nat, left: nat)
    requires InStep(offset, done, left) && left > 0
    ensures var w := CopyWidth(offset, left).Bytes();
            w <= left && (offset + done) % w == 0 && InStep(offset, done + w, left - w)
  {
    if offset % 8 == 0 && left >= 8 {
      StepBy8(offset, done, left);
    } else if offset % 4 == 0 && left >= 4 {
      StepBy4(offset, done, left);
    } else if offset % 2 == 0 && left >= 2 {
      StepBy2(offset, done, left);
    }
  }

  /** The moves follow each other: each starts, in source and destination, where the one before ended. */
  predicate Tiles(moves: seq<Move>, src: nat, dst: nat, size: nat)
    decreases |moves|
  {
    if moves == [] then size == 0
    else
      var last := moves[|moves| - 1];
      var w := last.size.Bytes();
      && w <= size && last.src == src + size - w && last.dst == dst + size - w
      && Tiles(moves[..|moves| - 1], src, dst, size - w)
  }

  /** The move copies byte i of the field. */
  predicate Copies(m: Move, src: nat, i: nat) {
    m.src <= src + i < m.src + m.size.Bytes()
  }

  /** Tiling moves copy every byte of the field exactly once. */
  lemma {:induction false} TilesCopyOnce(moves: seq<Move>, src: nat, dst: nat, size: nat, i: nat)
    requires Tiles(moves, src, dst, size) && i < size
    ensures exists k :: 0 <= k < |moves| && Copies(moves[k], src, i)
    ensures forall j, k :: 0 <= j < k < |moves| ==> !(Copies(moves[j], src, i) && Copies(moves[k], src, i))
    decreases |moves|
  {
    var front, last := moves[..|moves| - 1], moves[|moves| - 1];
    var left := size - last.size.Bytes();
    TilesStayBelow(front, src, dst, left);
    if i < left {
      TilesCopyOnce(front, src, dst, left, i);
      var k :| 0 <= k < |front| && Copies(front[k], src, i);
      assert moves[k] == front[k];
      assert !Copies(last, src, i);
      assert forall j, k :: 0 <= j < k < |front| ==> moves[j] == front[j] && moves[k] == front[k];
    } else {
      assert Copies(moves[|moves| - 1], src, i);
      assert forall j :: 0 <= j < |front| ==> moves[j] == front[j] && !Copies(front[j], src, i);
    }
  }

  lemma {:induction false} TilesStayBelow(moves: seq<Move>, src: nat, dst: nat, size: nat)
    requires Tiles(moves, src, dst, size)
    ensures forall j :: 0 <= j < |moves| ==> src <= moves[j].src && moves[j].src + moves[j].size.Bytes() <= src + size
    decreases |moves|
  {
    if moves != [] {
      TilesStayBelow(moves[..|moves| - 1], src, dst, size - moves[|moves| - 1].size.Bytes());
    }
  }

  /** The instructions of the moves: each loads from the header in r6 and stores into the scratch area. */
  function Emitted(moves: seq<Move>): seq<Item> {
    if moves == [] then []
    else
      var m := moves[|moves| - 1];
      Emitted(moves[..|moves| - 1]) + [LdxMem(m.size, 1, 6, m.src), StxMem(m.size, 10, 1, SCRATCH + m.dst)]
  }

  /** The copying loop. */
  method StxPayload(size: nat, hdrOffset: nat, offset: nat, ghost hdr: seq<byte>, ghost mem: map<int, byte>)
    returns (ghost moves: seq<Move>, code: seq<Item>)
    requires hdrOffset + size <= |hdr|
    ensures AllFit(moves, hdrOffset + size) && Tiles(moves, hdrOffset, offset, size) && code == Emitted(moves)
    ensures Run(moves, hdr, mem) == CopyBytes(mem, hdr, hdrOffset, offset, size)
  {
    hide InStep, CopyWidth;
    moves, code := [], [];
    assert InStep(offset, 0, size) by { StartsInStep(offset, size); }
    var left, src, dst: nat := size, 0, offset;
    while left > 0
      invariant 0 <= left && src + left == size && dst == offset + src && InStep(offset, src, left)
      invariant AllFit(moves, hdrOffset + size) && Tiles(moves, hdrOffset, offset, src) && code == Emitted(moves)
      invariant Run(moves, hdr, mem) == CopyBytes(mem, hdr, hdrOffset, offset, src)
    {
      StaysInStep(offset, src, left);
      var width := CopyWidth(offset, left);
      ghost var move := Move(width, hdrOffset + src, dst);
      CopyJoins(mem, hdr, hdrOffset, offset, src, width.Bytes());
      assert (moves + [move])[..|moves|] == moves;
      moves := moves + [move];
      code := code + [LdxMem(width, 1, 6, hdrOffset + src), StxMem(width, 10, 1, SCRATCH + dst)];
      left, src, dst := left - width.Bytes(), src + width.Bytes(), dst + width.Bytes();
    }
  }
}
