/**
 The two IPv6 extension-header walkers that generated programs call: the plain one and the
 one that also records which headers it met. Both are bounded loops over the packet; both
 are proved against one recursive description of the header chain.
 */
module Ipv6Walk {
  import opened Bits
  import opened Packet

  const HOPOPTS := 0
  const ROUTING := 43
  const FRAGMENT := 44
  const AH := 51
  const DSTOPTS := 60
  const MH := 135

  const MAX_CHAIN := 6
  const IPV6_HDR_LEN := 40
  const NEXTHDR_OFF := 6

  predicate IsExt(h: int) {
    h == HOPOPTS || h == ROUTING || h == FRAGMENT || h == AH || h == DSTOPTS || h == MH
  }

  /** Bytes from the start of extension header `h` to the next header. */
  function ExtLen(h: int, hdrlen: byte): (r: nat)
    ensures 8 <= r <= 2048
  {
    if h == AH then (hdrlen + 2) * 4
    else if h == FRAGMENT then hdrlen + 8
    else (hdrlen + 1) * 8
  }

  /** The header chain met from header `h` at `off`: types crossed, then where and why it stops. */
  datatype Trail = Trail(types: seq<int>, proto: byte, off: nat, readable: bool)

  function Trace(env: Env, h: byte, off: nat, n: nat): Trail
    decreases n
  {
    if n == 0 then Trail([], h, off, true)
    else if !SliceOk(env, off, 2) then Trail([], h, off, false)
    else if !IsExt(h) then Trail([], h, off, true)
    else
      var t := Trace(env, env.data[off], off + ExtLen(h, env.data[off + 1]), n - 1);
      t.(types := [h] + t.types)
  }

  /** The walk that starts at the next-header field of the IPv6 header at `l3Offset`. */
  function Walk(env: Env, l3Offset: nat, max: nat): Trail
    requires InData(env, l3Offset, IPV6_HDR_LEN)
  {
    Trace(env, env.data[l3Offset + NEXTHDR_OFF], l3Offset + IPV6_HDR_LEN, max)
  }

  /** Bit of the header mask that stands for an extension header. */
  function EhBit(h: int): (k: nat)
    ensures k < 6
  {
    if h == HOPOPTS then 0
    else if h == ROUTING then 1
    else if h == FRAGMENT then 2
    else if h == AH then 3
    else if h == DSTOPTS then 4
    else 5
  }

  /** m with bit k set, the value of m | (1 << k). */
  function SetBit(m: nat, k: nat): nat {
    if Bit(m, k) then m else m + Pow2(k)
  }

  /** The mask m after crossing the given headers in order. */
  function MaskFrom(m: nat, types: seq<int>): nat
    decreases |types|
  {
    if types == [] then m else MaskFrom(SetBit(m, EhBit(types[0])), types[1..])
  }

  function HeaderMask(types: seq<int>): nat {
    MaskFrom(0, types)
  }

  lemma SetBitBits(m: nat, k: nat, j: nat)
    ensures Bit(SetBit(m, k), j) == (j == k || Bit(m, j))
  {
    if !Bit(m, k) {
      AddPow2Bits(m, k, j);
    }
  }

  lemma {:induction false} MaskFromBits(m: nat, types: seq<int>, h: int)
    requires IsExt(h) && forall x :: x in types ==> IsExt(x)
    ensures Bit(MaskFrom(m, types), EhBit(h)) <==> Bit(m, EhBit(h)) || h in types
    decreases |types|
  {
    if types == [] {
    } else {
      assert types[0] in types && forall x :: x in types[1..] ==> x in types;
      MaskFromBits(SetBit(m, EhBit(types[0])), types[1..], h);
      SetBitBits(m, EhBit(types[0]), EhBit(h));
      assert h in types <==> h == types[0] || h in types[1..];
    }
  }

  lemma {:induction false} TraceBounds(env: Env, h: byte, off: nat, n: nat)
    ensures var t := Trace(env, h, off, n);
            off <= t.off <= off + n * 2048 && |t.types| <= n && forall x :: x in t.types ==> IsExt(x)
    decreases n
  {
    if n > 0 && SliceOk(env, off, 2) && IsExt(h) {
      TraceBounds(env, env.data[off], off + ExtLen(h, env.data[off + 1]), n - 1);
    }
  }

  /** The recorded mask is exactly the set of extension headers that were crossed. */
  lemma MaskIsTheSetOfHeaders(env: Env, h: byte, off: nat, n: nat, x: int)
    requires IsExt(x)
    ensures Bit(HeaderMask(Trace(env, h, off, n).types), EhBit(x)) <==> x in Trace(env, h, off, n).types
  {
    TraceBounds(env, h, off, n);
    MaskFromBits(0, Trace(env, h, off, n).types, x);
    ZeroHasNoBits(EhBit(x));
  }

  /** What the plain walker returns when it stops at the end of trail t. */
  function EhResult(t: Trail): byte {
    if t.readable then t.proto else 0
  }

  /**
   The plain walker (parse_ipv6_eh): returns 0 as soon as a slice fails.
   */
  method ParseIpv6Eh(env: Env, l3Offset: nat, max: nat) returns (proto: byte, l4Offset: nat)
    requires InData(env, l3Offset, IPV6_HDR_LEN)
    ensures proto == EhResult(Walk(env, l3Offset, max)) && l4Offset == Walk(env, l3Offset, max).off
  {
    ghost var goal := Walk(env, l3Offset, max);
    var next := env.data[l3Offset + NEXTHDR_OFF];
    l4Offset := l3Offset + IPV6_HDR_LEN;
    var i := 0;
    while i < max
      invariant 0 <= i <= max
      invariant var t := Trace(env, next, l4Offset, max - i);
                t.proto == goal.proto && t.off == goal.off && t.readable == goal.readable
    {
      if !SliceOk(env, l4Offset, 2) {
        return 0, l4Offset;
      }
      var nexthdr: byte, hdrlen: int := env.data[l4Offset], env.data[l4Offset + 1];
      if next == HOPOPTS || next == DSTOPTS || next == ROUTING || next == MH {
        next, l4Offset := nexthdr, l4Offset + (hdrlen + 1) * 8;
      } else if next == AH {
        next, l4Offset := nexthdr, l4Offset + (hdrlen + 2) * 4;
      } else if next == FRAGMENT {
        next, l4Offset := nexthdr, l4Offset + hdrlen + 8;
      } else {
        return next, l4Offset;
      }
      i := i + 1;
    }
    proto := next;
  }

  /**
   The recording walker (parse_ipv6_nh): leaves the loop when a slice fails and returns the
   header type it could not read, and accumulates the mask of crossed headers.
   */
  method ParseIpv6Nh(env: Env, l3Offset: nat, max: nat) returns (proto: byte, l4Offset: nat, ipv6Eh: nat)
    requires InData(env, l3Offset, IPV6_HDR_LEN)
    ensures proto == Walk(env, l3Offset, max).proto && l4Offset == Walk(env, l3Offset, max).off
    ensures ipv6Eh == HeaderMask(Walk(env, l3Offset, max).types)
  {
    ghost var goal := Walk(env, l3Offset, max);
    var next := env.data[l3Offset + NEXTHDR_OFF];
    ipv6Eh := 0;
    l4Offset := l3Offset + IPV6_HDR_LEN;
    var i := 0;
    while i < max
      invariant 0 <= i <= max
      invariant var t := Trace(env, next, l4Offset, max - i);
                t.proto == goal.proto && t.off == goal.off && MaskFrom(ipv6Eh, t.types) == HeaderMask(goal.types)
    {
      if !SliceOk(env, l4Offset, 2) {
        break;
      }
      if !IsExt(next) {
        break;
      }
      ipv6Eh := SetBit(ipv6Eh, EhBit(next));
      var offset, shift :=
        if next == AH then 2 else if next == FRAGMENT then 8 else 1,
        if next == AH then 4 else if next == FRAGMENT then 1 else 8;
      var nexthdr: byte, hdrlen: int := env.data[l4Offset], env.data[l4Offset + 1];
      l4Offset := l4Offset + (hdrlen + offset) * shift;
      next := nexthdr;
      i := i + 1;
    }
    proto := next;
  }

  /**
   The two walkers return the same protocol exactly when every read succeeded, or the walk
   was cut short in front of a hop-by-hop header, whose number is the failure value.
   */
  lemma WalkersAgree(env: Env, l3Offset: nat)
    requires InData(env, l3Offset, IPV6_HDR_LEN)
    ensures var t := Walk(env, l3Offset, MAX_CHAIN);
            && (EhResult(t) == t.proto <==> t.readable || t.proto == HOPOPTS)
            && l3Offset + IPV6_HDR_LEN <= t.off <= l3Offset + IPV6_HDR_LEN + 6 * 2048
  {
    TraceBounds(env, env.data[l3Offset + NEXTHDR_OFF], l3Offset + IPV6_HDR_LEN, MAX_CHAIN);
  }

  /** One hop before the end is cut off, and the walkers disagree on what stands there. */
  lemma WalkersDiffer(env: Env)
    requires InData(env, 0, IPV6_HDR_LEN) && env.data[NEXTHDR_OFF] == DSTOPTS
    requires SliceOk(env, 40, 2) && env.data[40] == 6 && env.data[41] == 0 && !SliceOk(env, 48, 2)
    ensures var t := Walk(env, 0, MAX_CHAIN); t.proto == 6 && EhResult(t) == 0
  {
    assert Trace(env, 6, 48, 5) == Trail([], 6, 48, false);
  }

  // ---- against section 4 of RFC 8200 ----

  /** Fragment headers have 8 bytes, whatever their reserved byte says (section 4.5 of RFC 8200). */
  function RfcLen(h: int, hdrlen: byte): (r: nat)
    ensures r >= 8
  {
    if h == FRAGMENT then 8 else ExtLen(h, hdrlen)
  }

  function RfcTrace(env: Env, h: byte, off: nat, n: nat): Trail
    decreases n
  {
    if n == 0 then Trail([], h, off, true)
    else if !SliceOk(env, off, 2) then Trail([], h, off, false)
    else if !IsExt(h) then Trail([], h, off, true)
    else
      var t := RfcTrace(env, env.data[off], off + RfcLen(h, env.data[off + 1]), n - 1);
      t.(types := [h] + t.types)
  }

  /** Offsets of the headers a walk looks at, one behind the other. */
  function Offsets(env: Env, h: byte, off: nat, n: nat, rfc: bool): seq<nat>
    decreases n
  {
    [off] +
    if n == 0 || !SliceOk(env, off, 2) || !IsExt(h) then []
    else
      var len := if rfc then RfcLen(h, env.data[off + 1]) else ExtLen(h, env.data[off + 1]);
      Offsets(env, env.data[off], off + len, n - 1, rfc)
  }

  /** Every fragment header the walk crosses has its reserved byte clear. */
  predicate ReservedClear(env: Env, h: byte, off: nat, n: nat)
    decreases n
  {
    n == 0 || !SliceOk(env, off, 2) || !IsExt(h) ||
    ((h == FRAGMENT ==> env.data[off + 1] == 0)
     && ReservedClear(env, env.data[off], off + ExtLen(h, env.data[off + 1]), n - 1))
  }

  predicate Crosses(env: Env, h: byte, off: nat, n: nat) {
    n > 0 && SliceOk(env, off, 2) && IsExt(h)
  }

  /** One hop of either walk: offsets, trails, and the condition. */
  lemma HopOffsets(env: Env, h: byte, off: nat, n: nat, rfc: bool)
    requires Crosses(env, h, off, n)
    ensures var len := if rfc then RfcLen(h, env.data[off + 1]) else ExtLen(h, env.data[off + 1]);
            Offsets(env, h, off, n, rfc) == [off] + Offsets(env, env.data[off], off + len, n - 1, rfc)
  {
    hide RfcLen, ExtLen;
  }

  lemma HopTrail(env: Env, h: byte, off: nat, n: nat)
    requires Crosses(env, h, off, n)
    ensures var next, len, rfc := env.data[off], ExtLen(h, env.data[off + 1]), RfcLen(h, env.data[off + 1]);
            Trace(env, next, off + len, n - 1) == RfcTrace(env, next, off + rfc, n - 1) ==>
              Trace(env, h, off, n) == RfcTrace(env, h, off, n)
  {
    hide RfcLen, ExtLen;
  }

  lemma HopClear(env: Env, h: byte, off: nat, n: nat)
    requires Crosses(env, h, off, n)
    ensures var len, rfc := ExtLen(h, env.data[off + 1]), RfcLen(h, env.data[off + 1]);
            ReservedClear(env, h, off, n) <==> len == rfc && ReservedClear(env, env.data[off], off + len, n - 1)
  {
  }

  lemma NoHop(env: Env, h: byte, off: nat, n: nat)
    requires !Crosses(env, h, off, n)
    ensures Offsets(env, h, off, n, false) == Offsets(env, h, off, n, true) && ReservedClear(env, h, off, n)
    ensures Trace(env, h, off, n) == RfcTrace(env, h, off, n)
  {
  }

  /** The walk looks at the headers where the standard has them exactly when reserved bytes are clear. */
  lemma {:induction false} WalkFollowsRfc(env: Env, h: byte, off: nat, n: nat)
    ensures Offsets(env, h, off, n, false) == Offsets(env, h, off, n, true) <==> ReservedClear(env, h, off, n)
    ensures ReservedClear(env, h, off, n) ==> Trace(env, h, off, n) == RfcTrace(env, h, off, n)
    decreases n
  {
    hide Offsets, Trace, RfcTrace, ReservedClear, ExtLen, RfcLen;
    if Crosses(env, h, off, n) {
      var next, len, rfc := env.data[off], ExtLen(h, env.data[off + 1]), RfcLen(h, env.data[off + 1]);
      HopOffsets(env, h, off, n, false);
      HopOffsets(env, h, off, n, true);
      HopTrail(env, h, off, n);
      HopClear(env, h, off, n);
      WalkFollowsRfc(env, next, off + len, n - 1);
      StartsAt(env, next, off + len, n - 1, false);
      StartsAt(env, next, off + rfc, n - 1, true);
      SameTail(off, Offsets(env, next, off + len, n - 1, false), Offsets(env, next, off + rfc, n - 1, true));
    } else {
      NoHop(env, h, off, n);
    }
  }

  lemma StartsAt(env: Env, h: byte, off: nat, n: nat, rfc: bool)
    ensures var s := Offsets(env, h, off, n, rfc); s != [] && s[0] == off
  {
  }

  lemma SameTail(x: nat, a: seq<nat>, b: seq<nat>)
    ensures [x] + a == [x] + b <==> a == b
  {
    assert ([x] + a)[1..] == a && ([x] + b)[1..] == b;
  }

  /** A fragment header with reserved byte 8 moves the segment behind it eight bytes too far. */
  lemma ReservedByteMisleads(env: Env)
    requires InData(env, 0, IPV6_HDR_LEN) && env.data[NEXTHDR_OFF] == FRAGMENT
    requires SliceOk(env, 40, 2) && env.data[40] == 6 && env.data[41] == 8 && SliceOk(env, 48, 2) && SliceOk(env, 56, 2)
    ensures Walk(env, 0, MAX_CHAIN).off == 56 && RfcTrace(env, FRAGMENT, 40, MAX_CHAIN).off == 48
  {
    assert Trace(env, 6, 56, 5).off == 56;
    assert RfcTrace(env, 6, 48, 5).off == 48;
  }
}
