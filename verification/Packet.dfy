/**
 The packet as a filter program sees it: bytes behind a BPF dynamic pointer, and the
 kernel's freedom to refuse to create the pointer, to refuse a slice, or to have no room
 left in the log ring buffer. `noise` stands for the bytes next to a stack field that a
 wider load picks up.
 */
module Packet {
  import opened Bits

  datatype Env = Env(data: seq<byte>, dynptrOk: bool, refused: set<(int, int)>, logRoom: bool, noise: nat)

  // bpf_dynptr_slice() yields a header only inside the packet, and may fail for other reasons.
  predicate SliceOk(env: Env, off: int, len: int) {
    0 <= off && 0 <= len && off + len <= |env.data| && (off, len) !in env.refused
  }

  predicate InData(env: Env, off: int, len: int) {
    0 <= off && 0 <= len && off + len <= |env.data|
  }

  /** Little-endian loads, as a little-endian host performs them. */
  function Le16(env: Env, off: int): (r: nat)
    requires InData(env, off, 2)
    ensures r < TWO16
  {
    env.data[off] + TWO8 * env.data[off + 1]
  }

  function Le32(env: Env, off: int): (r: nat)
    requires InData(env, off, 4)
    ensures r < TWO32
  {
    env.data[off] + TWO8 * env.data[off + 1] + TWO16 * env.data[off + 2] + TWO24 * env.data[off + 3]
  }
}
