/**
 IPv4 network prefixes: the byte mask built from a prefix length, and why comparing masked
 words compares exactly the leading bits of two addresses.
 */
module Prefix {
  import opened Bits

  type Addr = a: seq<byte> | |a| == 4 witness [0, 0, 0, 0]

  /** Bit j of a byte, most significant first. */
  predicate TopBit(x: byte, j: int)
    requires 0 <= j < 8
  {
    Bit(x, 7 - j)
  }

  /** Bit i of an address in network order, most significant first. */
  predicate AddrBit(a: Addr, i: int)
    requires 0 <= i < 32
  {
    TopBit(a[i / 8], i % 8)
  }

  predicate AgreeTop(x: byte, y: byte, r: nat)
    requires r <= 8
  {
    forall j :: 0 <= j < r ==> TopBit(x, j) == TopBit(y, j)
  }

  /** The first `prefixlen` bits are the same. */
  predicate SharePrefix(a: Addr, b: Addr, prefixlen: nat)
    requires prefixlen <= 32
  {
    forall i :: 0 <= i < prefixlen ==> AddrBit(a, i) == AddrBit(b, i)
  }

  /** How many leading bits of byte k the prefix covers. */
  function Covered(prefixlen: nat, k: nat): (r: nat)
    ensures r <= 8
  {
    if prefixlen <= 8 * k then 0 else if prefixlen >= 8 * k + 8 then 8 else prefixlen - 8 * k
  }

  /** The byte with the r leading bits set. */
  function HighOnes(r: nat): (m: byte)
    requires r <= 8
  {
    Pow2Mono(8 - r, 8);
    Pow2Small();
    Pow2(8) - Pow2(8 - r)
  }

  function MaskBytes(prefixlen: nat): Addr {
    [HighOnes(Covered(prefixlen, 0)), HighOnes(Covered(prefixlen, 1)),
     HighOnes(Covered(prefixlen, 2)), HighOnes(Covered(prefixlen, 3))]
  }

  /** The four bytes as a little-endian host loads them. */
  function Word(a: Addr): (w: nat)
    ensures w < TWO32
  {
    a[0] + TWO8 * a[1] + TWO16 * a[2] + TWO24 * a[3]
  }

  /** _bf_ip4_prefix_to_mask(): fills the mask in place. */
  method PrefixToMask(prefixlen: nat, mask: array<byte>)
    requires prefixlen <= 32 && mask.Length == 4
    modifies mask
    ensures mask[..] == MaskBytes(prefixlen)
  {
    for i := 0 to 4
      invariant forall j :: 0 <= j < i ==> mask[j] == 0
    {
      mask[i] := 0;
    }
    for i := 0 to prefixlen / 8
      invariant forall j :: 0 <= j < i ==> mask[j] == 0xff
      invariant forall j :: i <= j < 4 ==> mask[j] == 0
    {
      mask[i] := 0xff;
    }
    if prefixlen % 8 != 0 {
      var r := prefixlen % 8;
      ShiftedOnes(r);
      mask[prefixlen / 8] := 0xff * Pow2(8 - r) % 0x100;
    }
    Pow2Small();
    forall k | 0 <= k < 4
      ensures mask[k] == HighOnes(Covered(prefixlen, k))
    {
      if k < prefixlen / 8 {
        assert Covered(prefixlen, k) == 8;
      } else if k == prefixlen / 8 && prefixlen % 8 != 0 {
        assert Covered(prefixlen, k) == prefixlen % 8;
      } else {
        assert Covered(prefixlen, k) == 0;
      }
    }
  }

  lemma ShiftedOnes(r: nat)
    requires 1 <= r <= 7
    ensures 0xff * Pow2(8 - r) % 0x100 == HighOnes(r)
  {
    Pow2Small();
  }

  /** Two bytes agree after masking exactly when their r leading bits agree. */
  lemma {:induction false} TopBits(a: byte, b: byte, r: nat)
    requires r <= 8
    ensures a / Pow2(8 - r) == b / Pow2(8 - r) <==> AgreeTop(a, b, r)
    decreases r
  {
    hide Bit, Pow2;
    if r == 0 {
      Pow2Small();
      ModNoop(a, Pow2(8));
      ModNoop(b, Pow2(8));
    } else {
      TopBits(a, b, r - 1);
      HalvesAndBit(a, b, 8 - r);
      assert 8 - (r - 1) == 8 - r + 1;
      assert AgreeTop(a, b, r) <==> AgreeTop(a, b, r - 1) && TopBit(a, r - 1) == TopBit(b, r - 1);
    }
  }

  lemma HalvesAndBit(a: nat, b: nat, k: nat)
    ensures a / Pow2(k) == b / Pow2(k) <==> a / Pow2(k + 1) == b / Pow2(k + 1) && Bit(a, k) == Bit(b, k)
  {
    var p := Pow2(k);
    DivHalf(a, p);
    DivHalf(b, p);
  }

  lemma DivHalf(a: nat, p: nat)
    requires p >= 1
    ensures a / (2 * p) == a / p / 2
  {
    var q, r := a / p, a % p;
    var h, l := q / 2, q % 2;
    assert a == p * q + r;
    assert q == 2 * h + l;
    ScaleSum(p, h, l);
    MulAssoc2(p, h);
    assert a == (2 * p) * h + (p * l + r);
    DivUnique(a, 2 * p, h, p * l + r);
  }

  lemma ScaleSum(p: nat, h: nat, l: nat)
    requires l < 2
    ensures p * (2 * h + l) == 2 * (p * h) + p * l && 0 <= p * l <= p
  {
  }

  lemma MaskedByte(a: byte, b: byte, r: nat)
    requires r <= 8
    ensures BitAnd(a, HighOnes(r)) == BitAnd(b, HighOnes(r)) <==> AgreeTop(a, b, r)
  {
    hide Bit, BitAnd, Pow2, AgreeTop;
    Pow2Small();
    AndHighOnes(a, 8 - r, 8);
    AndHighOnes(b, 8 - r, 8);
    TopBits(a, b, r);
    ScaleInjective(Pow2(8 - r), a / Pow2(8 - r), b / Pow2(8 - r));
  }

  lemma ScaleInjective(p: nat, x: nat, y: nat)
    requires p >= 1
    ensures p * x == p * y <==> x == y
  {
    MulSub(p, x, y);
    if x > y {
      MulAtLeast(p, x - y);
    } else if x < y {
      MulAtLeast(p, y - x);
      MulSub(p, y, x);
    }
  }

  /** AND of two words, byte by byte. */
  lemma AndWord(a: Addr, m: Addr)
    ensures forall k :: 0 <= k < 4 ==> BitAnd(a[k], m[k]) < 256
    ensures BitAnd(Word(a), Word(m)) ==
            BitAnd(a[0], m[0]) + TWO8 * BitAnd(a[1], m[1]) + TWO16 * BitAnd(a[2], m[2]) + TWO24 * BitAnd(a[3], m[3])
  {
    hide BitAnd;
    forall k | 0 <= k < 4
      ensures BitAnd(a[k], m[k]) < 256
    {
      AndBound(a[k], m[k]);
    }
    var a2, m2 := a[2] + TWO8 * a[3], m[2] + TWO8 * m[3];
    var a1, m1 := a[1] + TWO8 * a2, m[1] + TWO8 * m2;
    AndLimb8(a[2], a[3], m[2], m[3]);
    AndLimb8(a[1], a2, m[1], m2);
    AndLimb8(a[0], a1, m[0], m1);
    assert Word(a) == a[0] + TWO8 * a1 && Word(m) == m[0] + TWO8 * m1;
  }

  lemma AndLimb8(a: byte, x: nat, b: byte, y: nat)
    ensures BitAnd(a + TWO8 * x, b + TWO8 * y) == BitAnd(a, b) + TWO8 * BitAnd(x, y)
  {
    Pow2Small();
    hide BitAnd;
    AndLimbs(8, a, x, b, y);
    ShlIsProduct(8, x);
    ShlIsProduct(8, y);
    ShlIsProduct(8, BitAnd(x, y));
  }

  lemma BytesDetermineWord(x0: nat, x1: nat, x2: nat, x3: nat, y0: nat, y1: nat, y2: nat, y3: nat)
    requires x0 < 256 && x1 < 256 && x2 < 256 && x3 < 256 && y0 < 256 && y1 < 256 && y2 < 256 && y3 < 256
    ensures x0 + TWO8 * x1 + TWO16 * x2 + TWO24 * x3 == y0 + TWO8 * y1 + TWO16 * y2 + TWO24 * y3 <==>
            x0 == y0 && x1 == y1 && x2 == y2 && x3 == y3
  {
  }

  predicate BytesAgree(a: Addr, b: Addr, prefixlen: nat) {
    forall k :: 0 <= k < 4 ==> AgreeTop(a[k], b[k], Covered(prefixlen, k))
  }

  lemma PrefixByBytes(a: Addr, b: Addr, prefixlen: nat)
    requires prefixlen <= 32
    ensures SharePrefix(a, b, prefixlen) <==> BytesAgree(a, b, prefixlen)
  {
    hide Bit;
    if SharePrefix(a, b, prefixlen) {
      forall k, j | 0 <= k < 4 && 0 <= j < Covered(prefixlen, k)
        ensures TopBit(a[k], j) == TopBit(b[k], j)
      {
        assert AddrBit(a, 8 * k + j) == AddrBit(b, 8 * k + j);
        assert (8 * k + j) / 8 == k && (8 * k + j) % 8 == j;
      }
    }
    if BytesAgree(a, b, prefixlen) {
      forall i | 0 <= i < prefixlen
        ensures AddrBit(a, i) == AddrBit(b, i)
      {
        var k := i / 8;
        assert AgreeTop(a[k], b[k], Covered(prefixlen, k));
        assert i % 8 < Covered(prefixlen, k);
      }
    }
  }

  /** Comparing the masked words compares exactly the first `prefixlen` bits. */
  lemma MaskedWordsCompareThePrefix(a: Addr, b: Addr, prefixlen: nat)
    requires prefixlen <= 32
    ensures var m := Word(MaskBytes(prefixlen));
            BitAnd(Word(a), m) == BitAnd(Word(b), m) <==> SharePrefix(a, b, prefixlen)
  {
    hide BitAnd, HighOnes, SharePrefix, Word, AgreeTop;
    var m := MaskBytes(prefixlen);
    AndWord(a, m);
    AndWord(b, m);
    BytesDetermineWord(BitAnd(a[0], m[0]), BitAnd(a[1], m[1]), BitAnd(a[2], m[2]), BitAnd(a[3], m[3]),
                       BitAnd(b[0], m[0]), BitAnd(b[1], m[1]), BitAnd(b[2], m[2]), BitAnd(b[3], m[3]));
    forall k | 0 <= k < 4
      ensures BitAnd(a[k], m[k]) == BitAnd(b[k], m[k]) <==> AgreeTop(a[k], b[k], Covered(prefixlen, k))
    {
      MaskedByte(a[k], b[k], Covered(prefixlen, k));
    }
    PrefixByBytes(a, b, prefixlen);
  }
}
