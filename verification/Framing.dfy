/**
 How a request or response crosses the socket: cut into messages that each carry the number
 of bytes still to come, and put together again in a growing buffer. Every message that is
 sent is received whole. What is received is what was sent, however it is cut, and nothing
 of a following transfer is touched.
 */
module Framing {
  import opened Bits
  import opened Rounding

  const MSG_SIZE: nat := 1024

  datatype Msg = Msg(rem: nat, payload: seq<byte>)

  // ---- the growing buffer ----

  /** Bytes in use, and bytes allocated but free. */
  class DynBuf {
    var data: seq<byte>
    var rem: nat

    function Capacity(): nat
      reads this
    {
      |data| + rem
    }

    constructor ()
      ensures data == [] && rem == 0
    {
      data, rem := [], 0;
    }

    /** Makes room for more bytes: the new capacity is a power of two as long as it fits 32 bits. */
    method Grow(req: nat)
      modifies this`rem
      ensures req == 0 ==> rem == old(rem)
      ensures req > 0 ==> Capacity() == RoundNextPowerOf2(old(Capacity()) + req) >= old(Capacity()) + req
      ensures 0 < req && old(Capacity()) + req <= TWO32 ==> IsPow2(Capacity())
      ensures 0 < req && 1 < old(Capacity()) + req <= TWO32 ==> Capacity() < 2 * (old(Capacity()) + req)
    {
      hide Smear;
      if req == 0 {
        return;
      }
      var need := |data| + rem + req;
      var newCap := RoundNextPowerOf2(need);
      RoundingGrows(need);
      if need <= TWO32 {
        ghost var k := RoundingIsExact(need);
        assert newCap == Pow2(k);
      }
      rem := newCap - |data|;
    }

    method Write(x: seq<byte>)
      modifies this
      ensures data == old(data) + x
      ensures Capacity() == old(Capacity()) || |x| > old(rem)
      ensures |x| > old(rem) && old(Capacity()) + |x| <= TWO32 ==> IsPow2(Capacity())
    {
      hide RoundNextPowerOf2, Pow2;
      if rem < |x| {
        Grow(|x|);
      }
      data := data + x;
      rem := rem - |x|;
    }

    method Take() returns (x: seq<byte>)
      modifies this
      ensures x == old(data) && data == [] && rem == 0
    {
      x := data;
      data, rem := [], 0;
    }
  }

  ghost predicate IsPow2(n: nat) {
    exists k: nat :: n == Pow2(k)
  }

  // ---- cutting and joining ----

  function Cut(b: seq<byte>): (msgs: seq<Msg>)
    ensures msgs == [] <==> b == []
    decreases |b|
  {
    if b == [] then []
    else if |b| <= MSG_SIZE then [Msg(0, b)]
    else [Msg(|b| - MSG_SIZE, b[..MSG_SIZE])] + Cut(b[MSG_SIZE..])
  }

  function Joined(msgs: seq<Msg>): seq<byte> {
    if msgs == [] then [] else msgs[0].payload + Joined(msgs[1..])
  }

  /** The header counts exactly the bytes behind its message, so it is 0 only in the last one. */
  lemma {:induction false} HeadersCountDown(b: seq<byte>, i: nat)
    requires i < |Cut(b)|
    ensures var m := Cut(b)[i];
            && 1 <= |m.payload| <= MSG_SIZE && m.rem == |Joined(Cut(b)[i + 1..])|
            && (m.rem == 0 <==> i == |Cut(b)| - 1)
    decreases |b|
  {
    CutJoins(b);
    if |b| > MSG_SIZE {
      CutJoins(b[MSG_SIZE..]);
      assert Cut(b)[1..] == Cut(b[MSG_SIZE..]);
      if i > 0 {
        HeadersCountDown(b[MSG_SIZE..], i - 1);
        assert Cut(b)[i + 1..] == Cut(b[MSG_SIZE..])[i..];
      }
    }
  }

  /** Message i carries bytes 1024 i to 1024 (i + 1), or the rest; there are just enough messages. */
  lemma {:induction false} CutAt(b: seq<byte>, i: nat)
    ensures i < |Cut(b)| <==> 1024 * i < |b|
    ensures i < |Cut(b)| ==>
              var end := if 1024 * i + 1024 < |b| then 1024 * i + 1024 else |b|;
              Cut(b)[i] == Msg(|b| - end, b[1024 * i..end])
    decreases |b|
  {
    if |b| > MSG_SIZE {
      assert Cut(b)[1..] == Cut(b[MSG_SIZE..]);
      if i > 0 {
        CutAt(b[MSG_SIZE..], i - 1);
      }
    }
  }

  lemma {:induction false} CutJoins(b: seq<byte>)
    ensures Joined(Cut(b)) == b
    decreases |b|
  {
    if 0 < |b| <= MSG_SIZE {
      assert Cut(b)[1..] == [] && b + [] == b;
    } else if |b| > MSG_SIZE {
      CutJoins(b[MSG_SIZE..]);
      assert Cut(b)[1..] == Cut(b[MSG_SIZE..]);
      assert b[..MSG_SIZE] + b[MSG_SIZE..] == b;
    }
  }

  /** The sending loop. */
  method Send(buf: seq<byte>) returns (msgs: seq<Msg>)
    ensures msgs == Cut(buf)
  {
    msgs := [];
    var sent, left := 0, |buf|;
    assert buf[0..] == buf;
    while left > 0
      invariant sent + left == |buf| && 0 <= left && msgs + Cut(buf[sent..]) == Cut(buf)
      decreases left
    {
      var size := if left < MSG_SIZE then left else MSG_SIZE;
      ghost var rest := buf[sent..];
      CutStep(rest);
      assert rest[..size] == buf[sent..sent + size] && rest[size..] == buf[sent + size..];
      msgs := msgs + [Msg(left - size, buf[sent..sent + size])];
      sent, left := sent + size, left - size;
    }
  }

  lemma {:induction false} CutStep(b: seq<byte>)
    requires b != []
    ensures var size := if |b| < MSG_SIZE then |b| else MSG_SIZE;
            Cut(b) == [Msg(|b| - size, b[..size])] + Cut(b[size..])
  {
    if |b| <= MSG_SIZE {
      assert b[..|b|] == b && b[|b|..] == [];
      assert Cut([]) == [];
    }
  }

  /** How the receiving loop ends: with all bytes, or waiting for a message that is not there. */
  datatype Reception = Complete(used: nat) | Waiting

  /** The receiving loop: messages are taken until one says that nothing follows. */
  method Receive(msgs: seq<Msg>, buf: DynBuf) returns (r: Reception)
    modifies buf
    ensures r == Received(msgs)
    ensures buf.data == old(buf.data) + Joined(msgs[..if r.Complete? then r.used else |msgs|])
  {
    var remaining, i := 1, 0;
    assert msgs[..0] == [] && msgs[0..] == msgs;
    while remaining > 0
      invariant 0 <= i <= |msgs| && buf.data == old(buf.data) + Joined(msgs[..i])
      invariant Received(msgs) == if remaining == 0 then Complete(i) else After(i, Received(msgs[i..]))
      decreases |msgs| - i
    {
      if i == |msgs| {
        return Waiting;
      }
      buf.Write(msgs[i].payload);
      JoinedSnoc(msgs, i);
      assert msgs[i..][1..] == msgs[i + 1..];
      remaining := msgs[i].rem;
      i := i + 1;
    }
    return Complete(i);
  }

  function After(n: nat, r: Reception): Reception {
    match r case Complete(k) => Complete(n + k) case Waiting => Waiting
  }

  function Received(msgs: seq<Msg>): (r: Reception)
    ensures r.Complete? ==> 1 <= r.used <= |msgs|
  {
    if msgs == [] then Waiting else if msgs[0].rem == 0 then Complete(1) else After(1, Received(msgs[1..]))
  }

  /** A transfer ends with the first message behind which nothing follows. */
  lemma {:induction false} ReceivedToFirstZero(msgs: seq<Msg>, k: nat)
    ensures Received(msgs) == Complete(k) <==> && 1 <= k <= |msgs| && msgs[k - 1].rem == 0
                                               && forall i :: 0 <= i < k - 1 ==> msgs[i].rem != 0
    decreases |msgs|
  {
    if msgs != [] && msgs[0].rem != 0 && k > 0 {
      ReceivedToFirstZero(msgs[1..], k - 1);
      if 2 <= k <= |msgs| {
        assert msgs[1..][k - 2] == msgs[k - 1];
      }
      assert forall i :: 0 <= i < |msgs| - 1 ==> msgs[1..][i] == msgs[i + 1];
      assert (forall i :: 0 <= i < k - 2 && i < |msgs| - 1 ==> msgs[1..][i].rem != 0) <==>
             (forall i :: 1 <= i < k - 1 && i < |msgs| ==> msgs[i].rem != 0) by {
        assert forall i :: 1 <= i < |msgs| ==> msgs[i] == msgs[1..][i - 1];
      }
    }
  }

  lemma {:induction false} JoinedSnoc(msgs: seq<Msg>, i: nat)
    requires i < |msgs|
    ensures Joined(msgs[..i + 1]) == Joined(msgs[..i]) + msgs[i].payload
    decreases i
  {
    if i == 0 {
      assert msgs[..1][1..] == [] && msgs[..0] == [];
    } else {
      JoinedSnoc(msgs[1..], i - 1);
      assert msgs[..i + 1][1..] == msgs[1..][..i] && msgs[..i][1..] == msgs[1..][..i - 1];
    }
  }

  /** Whatever follows on the socket, exactly the messages of one transfer are taken. */
  lemma {:induction false} CutIsReceived(b: seq<byte>, more: seq<Msg>)
    requires b != []
    ensures Received(Cut(b) + more) == Complete(|Cut(b)|)
    decreases |b|
  {
    if |b| > MSG_SIZE {
      CutIsReceived(b[MSG_SIZE..], more);
      assert (Cut(b) + more)[1..] == Cut(b[MSG_SIZE..]) + more;
    }
  }

  /** Sending and receiving a transfer. An empty one sends nothing, so its receiver waits for ever. */
  method Transfer(b: seq<byte>, more: seq<Msg>) returns (got: seq<byte>, rest: seq<Msg>, r: Reception)
    ensures b != [] ==> r.Complete? && got == b && rest == more
    ensures b == [] && more == [] ==> r.Waiting?
  {
    var msgs := Send(b);
    var buf := new DynBuf();
    var wire := msgs + more;
    r := Receive(wire, buf);
    got := buf.Take();
    rest := if r.Complete? then wire[r.used..] else [];
    if b != [] {
      CutIsReceived(b, more);
      CutJoins(b);
      assert wire[..|msgs|] == msgs && wire[|msgs|..] == more;
    }
  }
}
