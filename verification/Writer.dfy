/**
 The byte sink of a message writer: a small fixed buffer that is flushed into a growing
 block of memory. However writes fall across the buffer's edge, the bytes come out in order.
 */
module Writer {
  import opened Bits
  import PagedLayout

  const BUFFER_SIZE: nat := 64

  class Sink {
    var buffer: seq<byte>
    var data: seq<byte>
    var dataCap: nat

    predicate Valid()
      reads this
    {
      |buffer| <= BUFFER_SIZE && (data == [] || |data| < dataCap)
    }

    /** Everything written so far. */
    function Contents(): seq<byte>
      reads this
    {
      data + buffer
    }

    constructor ()
      ensures Valid() && Contents() == []
    {
      buffer, data, dataCap := [], [], 0;
    }

    /** The flush callback: grows the block by doubling and appends. */
    method FlushTo(x: seq<byte>)
      requires data == [] || |data| < dataCap
      modifies this`data, this`dataCap
      ensures data == old(data) + x && |data| < dataCap
      ensures dataCap == old(dataCap) || dataCap <= 2 * |data| || dataCap == 64
    {
      if dataCap <= |data| + |x| {
        var newCap := if dataCap == 0 then 64 else dataCap;
        while newCap <= |data| + |x|
          invariant newCap > 0
          invariant newCap == dataCap || newCap == 64 || newCap <= 2 * (|data| + |x|)
          decreases |data| + |x| - newCap
        {
          newCap := 2 * newCap;
        }
        dataCap := newCap;
      }
      data := data + x;
    }

    /** The buffer is emptied before the callback sees it. */
    method FlushBuffer()
      requires Valid()
      modifies this
      ensures Valid() && buffer == [] && Contents() == old(Contents())
    {
      var used := buffer;
      buffer := [];
      FlushTo(used);
    }

    method WriteEncoded(x: seq<byte>)
      requires Valid() && 1 <= |x| <= PagedLayout.MIN_BUFFER
      modifies this
      ensures Valid() && Contents() == old(Contents()) + x
    {
      if BUFFER_SIZE - |buffer| < |x| {
        FlushBuffer();
      }
      buffer := buffer + x;
    }

    /** Bytes of any number; what does not fit an empty buffer bypasses it. */
    method WriteNative(x: seq<byte>)
      requires Valid()
      modifies this
      ensures Valid() && Contents() == old(Contents()) + x
    {
      if BUFFER_SIZE - |buffer| < |x| {
        FlushBuffer();
        if |x| > BUFFER_SIZE - |buffer| {
          FlushTo(x);
        } else {
          buffer := buffer + x;
        }
      } else {
        buffer := buffer + x;
      }
    }

    method FlushMessage()
      requires Valid()
      modifies this
      ensures Valid() && data == old(Contents()) && buffer == []
    {
      if |buffer| > 0 {
        FlushBuffer();
      }
    }
  }
}
