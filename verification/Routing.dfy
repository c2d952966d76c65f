/**
 Which IPv6 packets reach the extension-header walker. The prologue tests the next header
 against a 64-bit literal whose bits are not the ones its comment lists; this module says
 exactly which packets are classified differently because of it.
 */
module Routing {
  import opened Bits
  import opened Packet
  import opened Reference
  import opened Ipv6Walk

  /** Next headers the prologue says it sends to the walker: every extension header. */
  predicate Intended(nexthdr: int) {
    nexthdr in {0, 43, 44, 50, 51, 60, 135, 139, 140}
  }

  /** The classification of an IPv6 packet when the walker is taken for the headers in `walks`. */
  function Classify(env: Env, record: bool, l3off: nat, ifindex: nat, size: nat, walks: bool): Parsed
    requires InData(env, l3off, IPV6_HDR_LEN)
  {
    var t := Walk(env, l3off, MAX_CHAIN);
    var nexthdr := env.data[l3off + NEXTHDR_OFF];
    var proto := if !walks then nexthdr else if record then t.proto else EhResult(t);
    var off := if walks then t.off else l3off + IPV6_HDR_LEN;
    var eh := if walks && record then HeaderMask(t.types) % TWO8 else 0;
    if !KnownL4(proto) then Parsed(View(IP6, 0, l3off, off, ifindex, size, eh))
    else if !SliceOk(env, off, L4Len(proto)) then Rejected
    else Parsed(View(IP6, proto, l3off, off, ifindex, size, eh))
  }

  /** What a rule can observe: the transport offset only when there is a transport header. */
  function Seen(p: Parsed): Parsed {
    if p.Parsed? && p.v.l4 == 0 then Parsed(p.v.(l4off := 0)) else p
  }

  lemma ParseFromClassifies(env: Env, record: bool, l3off: nat, ifindex: nat, size: nat)
    requires SliceOk(env, l3off, IPV6_HDR_LEN)
    ensures ParseFrom(env, record, IP6, l3off, ifindex, size) ==
            Classify(env, record, l3off, ifindex, size, Walked(env.data[l3off + NEXTHDR_OFF]))
  {
    hide Trace, HeaderMask;
  }

  /** A first header that is no extension header makes the walk a detour without effect. */
  lemma DetourIsHarmless(env: Env, record: bool, l3off: nat, ifindex: nat, size: nat)
    requires InData(env, l3off, IPV6_HDR_LEN) && !IsExt(env.data[l3off + NEXTHDR_OFF])
    requires !KnownL4(env.data[l3off + NEXTHDR_OFF])
    ensures Classify(env, record, l3off, ifindex, size, true) == Classify(env, record, l3off, ifindex, size, false)
  {
  }

  lemma LowByteHoldsBits(m: nat, k: nat)
    requires k < 6 && m % TWO8 == 0
    ensures !Bit(m, k)
  {
    Pow2Small();
    Pow2Add(k, 8 - k);
    var q, e := m / TWO8, Pow2(7 - k);
    assert Pow2(8 - k) == 2 * e;
    calc {
      m;
      TWO8 * q;
      (Pow2(k) * (2 * e)) * q;
      Pow2(k) * (2 * e * q);
    }
    DivUnique(m, Pow2(k), 2 * e * q, 0);
    assert 2 * e * q == 2 * (e * q);
  }

  lemma BitInLowByte(m: nat, k: nat)
    requires Bit(m, k) && k < 6
    ensures m % TWO8 != 0
  {
    if m % TWO8 == 0 {
      LowByteHoldsBits(m, k);
    }
  }

  /** Crossing at least one header records its bit. */
  lemma FirstHeaderIsRecorded(env: Env, l3off: nat)
    requires InData(env, l3off, IPV6_HDR_LEN)
    requires var h := env.data[l3off + NEXTHDR_OFF]; IsExt(h) && SliceOk(env, l3off + IPV6_HDR_LEN, 2)
    ensures HeaderMask(Walk(env, l3off, MAX_CHAIN).types) % TWO8 != 0
  {
    hide Bit, MaskFrom;
    var h := env.data[l3off + NEXTHDR_OFF];
    var t := Walk(env, l3off, MAX_CHAIN);
    assert t.types[0] == h && h in t.types;
    MaskIsTheSetOfHeaders(env, h, l3off + IPV6_HDR_LEN, MAX_CHAIN, h);
    BitInLowByte(HeaderMask(t.types), EhBit(h));
  }

  /**
   The prologue classifies an IPv6 packet as its comment promises exactly when the first next
   header is not routing, fragment or authentication, or that header cannot be read, or the
   walk would have changed nothing a rule can see.
   */
  lemma RoutingAsDocumented(env: Env, record: bool, l3off: nat, ifindex: nat, size: nat)
    requires SliceOk(env, l3off, IPV6_HDR_LEN)
    ensures var nexthdr := env.data[l3off + NEXTHDR_OFF];
            Seen(ParseFrom(env, record, IP6, l3off, ifindex, size)) ==
            Seen(Classify(env, record, l3off, ifindex, size, Intended(nexthdr)))
            <==> nexthdr !in {ROUTING, FRAGMENT, AH} || !SliceOk(env, l3off + IPV6_HDR_LEN, 2)
                 || (!record && !KnownL4(EhResult(Walk(env, l3off, MAX_CHAIN))))
  {
    var nexthdr := env.data[l3off + NEXTHDR_OFF];
    ParseFromClassifies(env, record, l3off, ifindex, size);
    if Walked(nexthdr) != Intended(nexthdr) {
      if nexthdr in {ROUTING, FRAGMENT, AH} {
        if SliceOk(env, l3off + IPV6_HDR_LEN, 2) {
          FirstHeaderIsRecorded(env, l3off);
        }
      } else {
        DetourIsHarmless(env, record, l3off, ifindex, size);
      }
    }
  }

  /**
   The family is not empty: a fragmented TCP segment is classified as carrying no transport
   protocol, though the walker would have found the segment.
   */
  lemma FragmentedTcpIsMissed(env: Env, ifindex: nat, size: nat)
    requires SliceOk(env, 0, 40) && SliceOk(env, 40, 2) && SliceOk(env, 48, 2) && SliceOk(env, 48, 20)
    requires env.data[6] == FRAGMENT && env.data[40] == TCP && env.data[41] == 0
    ensures ParseFrom(env, false, IP6, 0, ifindex, size) == Parsed(View(IP6, 0, 0, 40, ifindex, size, 0))
    ensures Classify(env, false, 0, ifindex, size, Intended(FRAGMENT)) == Parsed(View(IP6, TCP, 0, 48, ifindex, size, 0))
  {
    assert Trace(env, TCP, 48, 5) == Trail([], TCP, 48, true);
  }
}
