/**
 The bit-smearing rounding to a power of two that sizes program images and buffers. It smears
 over 32 bit positions, so it is exact for every value up to 2^32, and above that exactly for
 the values v where v - 1 has no 32 consecutive zero bits below its highest bit.
 */
module Rounding {
  import opened Bits

  function BitOr(a: nat, b: nat): nat
    decreases a + b
  {
    if a == 0 && b == 0 then 0
    else (if a % 2 == 1 || b % 2 == 1 then 1 else 0) + 2 * BitOr(a / 2, b / 2)
  }

  /** value |= value >> k, with the shift as a division. */
  function Fold(x: nat, k: nat): nat {
    DivNat(x, Pow2(k));
    BitOr(x, x / Pow2(k))
  }

  function Smear(x: nat): nat {
    Fold(Fold(Fold(Fold(Fold(x, 1), 2), 4), 8), 16)
  }

  /** _bf_round_next_power_of_2(); zero wraps around and stays zero. */
  function RoundNextPowerOf2(v: nat): nat {
    if v == 0 then 0 else Smear(v - 1) + 1
  }

  lemma {:induction false} OrBounds(a: nat, b: nat, n: nat)
    requires a < Pow2(n) && b < Pow2(n)
    ensures BitOr(a, b) >= a && BitOr(a, b) >= b && BitOr(a, b) < Pow2(n)
    decreases n
  {
    if n == 0 {
    } else {
      OrBounds(a / 2, b / 2, n - 1);
    }
  }

  lemma OrUnfold(a: nat, b: nat)
    ensures BitOr(a, b) == (if a % 2 == 1 || b % 2 == 1 then 1 else 0) + 2 * BitOr(a / 2, b / 2)
  {
  }

  lemma OrLimbStep(a: nat, p: nat, b: nat, c: nat)
    requires BitOr(a / 2 + p, b / 2) == BitOr(a / 2, b / 2) + c
    ensures BitOr(a + 2 * p, b) == BitOr(a, b) + 2 * c
  {
    HalfOfSum(a, p);
    OrUnfold(a + 2 * p, b);
    OrUnfold(a, b);
  }

  lemma {:induction false} OrSelf0(x: nat)
    ensures BitOr(x, 0) == x
  {
    if x != 0 {
      OrSelf0(x / 2);
    }
  }

  /** A high limb is kept when the other operand stays below it. */
  lemma {:induction false} OrHighLimb(k: nat, a: nat, x: nat, b: nat)
    requires a < Pow2(k) && b < Pow2(k)
    ensures BitOr(a + Shl(k, x), b) == BitOr(a, b) + Shl(k, x)
    decreases k
  {
    if k == 0 {
      OrSelf0(x);
      OrSelf0(0);
    } else {
      OrHighLimb(k - 1, a / 2, x, b / 2);
      OrLimbStep(a, Shl(k - 1, x), b, Shl(k - 1, x));
    }
  }

  // x has n bits of which the top j are set.
  predicate TopOnes(x: nat, n: nat, j: nat)
    requires j <= n
  {
    Pow2(n) - Pow2(n - j) <= x < Pow2(n)
  }

  lemma Split(n: nat, j: nat)
    requires j <= n
    ensures Shl(n - j, Pow2(j) - 1) == Pow2(n) - Pow2(n - j)
    ensures Pow2(n) == Pow2(j) * Pow2(n - j)
  {
    hide Pow2, Shl;
    Pow2Add(j, n - j);
    ShlIsProduct(n - j, Pow2(j) - 1);
    ScaleLess(Pow2(n - j), Pow2(j));
  }

  lemma ScaleLess(p: nat, q: nat)
    requires q >= 1
    ensures p * (q - 1) == q * p - p
  {
  }

  /** d * q + r with a quotient below y leaves the number below d * y. */
  lemma QuotientBelow(d: nat, q: nat, r: nat, y: nat)
    requires r < d && q < y
    ensures d * q + r < d * y
  {
    ScaleMono(d, q + 1, y);
    ScaleOne(d, q);
  }

  lemma QuotientOfTop(x: nat, n: nat, j: nat)
    requires 1 <= j <= n && TopOnes(x, n, j)
    ensures x / Pow2(j) < Pow2(n - j)
    ensures 2 * j <= n ==> x / Pow2(j) >= Pow2(n - j) - Pow2(n - 2 * j)
    ensures 2 * j > n ==> x / Pow2(j) == Pow2(n - j) - 1
  {
    hide Pow2;
    var d, m := Pow2(j), Pow2(n - j);
    Split(n, j);
    if 2 * j <= n {
      Pow2Add(j, n - 2 * j);
      Quotients(x, d, m, Pow2(n - 2 * j));
    } else {
      Pow2Mono(n - j, j);
      Quotients(x, d, m, 1);
    }
  }

  lemma Quotients(x: nat, d: nat, m: nat, t: nat)
    requires d >= 1 && d * m - d * t <= x < d * m
    ensures m - t <= x / d < m
  {
    var q, r := x / d, x % d;
    assert x == d * q + r;
    if q >= m {
      ScaleMono(d, m, q);
    }
    if q < m - t {
      QuotientBelow(d, q, r, m - t);
      MulSub(d, m, t);
    }
  }

  lemma ScaleMono(d: nat, x: nat, y: nat)
    requires x <= y
    ensures d * x <= d * y
  {
  }

  lemma ScaleOne(d: nat, q: nat)
    ensures d * (q + 1) == d * q + d
  {
  }

  /** One fold doubles the run of ones at the top. */
  lemma FoldDoubles(x: nat, n: nat, j: nat)
    requires 1 <= j <= n && TopOnes(x, n, j)
    ensures TopOnes(Fold(x, j), n, if 2 * j <= n then 2 * j else n)
  {
    hide BitOr, Pow2, Shl;
    var m := n - j;
    Pow2Mono(m, n);
    var low, q := x - (Pow2(n) - Pow2(m)), x / Pow2(j);
    assert low + Shl(m, Pow2(j) - 1) == x && Pow2(n) - Pow2(m) == Shl(m, Pow2(j) - 1) by { Split(n, j); }
    QuotientOfTop(x, n, j);
    OrHighLimb(m, low, Pow2(j) - 1, q);
    OrBounds(low, q, m);
    Pow2Zero();
  }

  lemma Pow2Zero()
    ensures Pow2(0) == 1
  {
  }

  function Capped(n: nat, j: nat): nat {
    if j <= n then j else n
  }

  lemma FoldCapped(x: nat, n: nat, j: nat)
    requires 1 <= n && j >= 1 && TopOnes(x, n, Capped(n, j))
    ensures TopOnes(Fold(x, j), n, Capped(n, 2 * j))
  {
    if j <= n {
      FoldDoubles(x, n, j);
    } else {
      FullFold(x, n, j);
    }
  }

  lemma FullFold(x: nat, n: nat, j: nat)
    requires n < j && TopOnes(x, n, n)
    ensures Fold(x, j) == x
  {
    hide BitOr;
    Pow2Mono(n, j);
    ModNoop(x, Pow2(j));
    OrSelf0(x);
  }

  /** The bit length of a positive number. */
  lemma BitLength(x: nat) returns (n: nat)
    requires x >= 1
    ensures n >= 1 && Pow2(n - 1) <= x < Pow2(n)
  {
    if x == 1 {
      n := 1;
    } else {
      n := BitLength(x / 2);
      n := n + 1;
    }
  }

  lemma SmearMeaning(x: nat, n: nat)
    requires 1 <= n <= 32 && Pow2(n - 1) <= x < Pow2(n)
    ensures Smear(x) == Pow2(n) - 1
  {
    hide Fold;
    assert TopOnes(x, n, Capped(n, 1));
    var a := Fold(x, 1);
    FoldCapped(x, n, 1);
    var b := Fold(a, 2);
    FoldCapped(a, n, 2);
    var c := Fold(b, 4);
    FoldCapped(b, n, 4);
    var d := Fold(c, 8);
    FoldCapped(c, n, 8);
    FoldCapped(d, n, 16);
  }

  /** Rounding is exact: a power of two, at least the value, less than twice the value. */
  lemma RoundingIsExact(v: nat) returns (k: nat)
    requires 1 <= v <= TWO32
    ensures RoundNextPowerOf2(v) == Pow2(k) && v <= Pow2(k) && (v > 1 ==> Pow2(k) < 2 * v)
  {
    hide Fold;
    if v == 1 {
      k := 0;
      ZeroSmears();
    } else {
      k := BitLength(v - 1);
      Pow2Values();
      if k > 32 {
        Pow2Mono(32, k - 1);
      }
      SmearMeaning(v - 1, k);
    }
  }

  lemma ZeroSmears()
    ensures Smear(0) == 0
  {
    assert Fold(0, 1) == 0 && Fold(0, 2) == 0 && Fold(0, 4) == 0 && Fold(0, 8) == 0 && Fold(0, 16) == 0 by {
      FoldZero(1);
      FoldZero(2);
      FoldZero(4);
      FoldZero(8);
      FoldZero(16);
    }
  }

  lemma FoldZero(k: nat)
    ensures Fold(0, k) == 0
  {
    ModNoop(0, Pow2(k));
  }

  /** Rounding never makes a value smaller, whatever its size. */
  lemma RoundingGrows(v: nat)
    ensures RoundNextPowerOf2(v) >= v
  {
    hide Fold;
    if v > 0 {
      var x := v - 1;
      FoldGrows(x, 1);
      FoldGrows(Fold(x, 1), 2);
      FoldGrows(Fold(Fold(x, 1), 2), 4);
      FoldGrows(Fold(Fold(Fold(x, 1), 2), 4), 8);
      FoldGrows(Fold(Fold(Fold(Fold(x, 1), 2), 4), 8), 16);
    }
  }

  lemma FoldGrows(x: nat, k: nat)
    ensures Fold(x, k) >= x
  {
    DivNat(x, Pow2(k));
    OrGrows(x, x / Pow2(k));
  }

  lemma {:induction false} OrGrows(a: nat, b: nat)
    ensures BitOr(a, b) >= a
    decreases a + b
  {
    if a != 0 || b != 0 {
      OrGrows(a / 2, b / 2);
    }
  }

  // ---- above 32 bits ----

  lemma {:induction false} OrBit(a: nat, b: nat, j: nat)
    ensures Bit(BitOr(a, b), j) <==> Bit(a, j) || Bit(b, j)
    decreases j
  {
    OrUnfold(a, b);
    hide BitOr, Bit;
    var c := BitOr(a, b);
    if j == 0 {
      BitAtZero(a);
      BitAtZero(b);
      BitAtZero(c);
    } else {
      BitStep(a, j);
      BitStep(b, j);
      BitStep(c, j);
      assert c / 2 == BitOr(a / 2, b / 2);
      OrBit(a / 2, b / 2, j - 1);
    }
  }

  lemma {:induction false} ShiftedBit(x: nat, k: nat, j: nat)
    ensures x / Pow2(k) >= 0 && (Bit(x / Pow2(k), j) <==> Bit(x, j + k))
    decreases k
  {
    DivNat(x, Pow2(k));
    hide Bit;
    if k == 0 {
      assert x / 1 == x;
    } else {
      ShiftedBit(x / 2, k - 1, j);
      DivDiv(x, Pow2(k - 1));
      BitStep(x, j + k);
    }
  }

  /** One of the w bits from position j on is set. */
  predicate Window(x: nat, j: nat, w: nat) {
    exists p :: j <= p < j + w && Bit(x, p)
  }

  /** Folding by w doubles the window. */
  lemma FoldWindow(x: nat, y: nat, w: nat)
    requires forall j: nat :: Bit(y, j) <==> Window(x, j, w)
    ensures forall j: nat :: Bit(Fold(y, w), j) <==> Window(x, j, 2 * w)
  {
    hide Bit;
    forall j: nat
      ensures Bit(Fold(y, w), j) <==> Window(x, j, 2 * w)
    {
      FoldBit(y, w, j);
      WindowSplit(x, j, w);
    }
  }

  lemma FoldBit(y: nat, w: nat, j: nat)
    ensures Bit(Fold(y, w), j) <==> Bit(y, j) || Bit(y, j + w)
  {
    hide Bit, BitOr;
    ShiftedBit(y, w, j);
    OrBit(y, y / Pow2(w), j);
  }

  lemma WindowSplit(x: nat, j: nat, w: nat)
    ensures Window(x, j, 2 * w) <==> Window(x, j, w) || Window(x, j + w, w)
  {
    hide Bit;
  }

  /** A bit of the smeared value is set when one of the 32 bits from there on was. */
  lemma SmearWindow(x: nat)
    ensures forall j: nat :: Bit(Smear(x), j) <==> Window(x, j, 32)
  {
    hide Bit, Fold;
    forall j: nat
      ensures Bit(x, j) <==> Window(x, j, 1)
    {
      OneBitWindow(x, j);
    }
    FoldWindow(x, x, 1);
    FoldWindow(x, Fold(x, 1), 2);
    FoldWindow(x, Fold(Fold(x, 1), 2), 4);
    FoldWindow(x, Fold(Fold(Fold(x, 1), 2), 4), 8);
    FoldWindow(x, Fold(Fold(Fold(Fold(x, 1), 2), 4), 8), 16);
  }

  lemma OneBitWindow(x: nat, j: nat)
    ensures Bit(x, j) <==> Window(x, j, 1)
  {
    hide Bit;
  }

  lemma {:induction false} OnesBelow(y: nat, n: nat)
    requires y < Pow2(n)
    ensures y == Pow2(n) - 1 <==> forall j :: 0 <= j < n ==> Bit(y, j)
    decreases n
  {
    hide Bit;
    if n > 0 {
      OnesBelow(y / 2, n - 1);
      BitAtZero(y);
      forall j | 0 <= j < n - 1
        ensures Bit(y / 2, j) == Bit(y, j + 1)
      {
        BitStep(y, j + 1);
      }
      if forall j :: 0 <= j < n ==> Bit(y, j) {
        assert forall j :: 0 <= j < n - 1 ==> Bit(y / 2, j);
      }
      if forall j :: 0 <= j < n - 1 ==> Bit(y / 2, j) {
        forall j | 0 < j < n
          ensures Bit(y, j)
        {
          assert Bit(y / 2, j - 1) == Bit(y, j - 1 + 1);
        }
      }
    }
  }

  lemma SmearBound(x: nat, n: nat)
    requires x < Pow2(n)
    ensures x <= Smear(x) < Pow2(n)
  {
    hide Fold, Pow2;
    FoldBound(x, 1, n);
    FoldBound(Fold(x, 1), 2, n);
    FoldBound(Fold(Fold(x, 1), 2), 4, n);
    FoldBound(Fold(Fold(Fold(x, 1), 2), 4), 8, n);
    FoldBound(Fold(Fold(Fold(Fold(x, 1), 2), 4), 8), 16, n);
  }

  lemma FoldBound(x: nat, k: nat, n: nat)
    requires x < Pow2(n)
    ensures x <= Fold(x, k) < Pow2(n)
  {
    hide BitOr;
    DivNat(x, Pow2(k));
    DivShrinks(x, Pow2(k));
    OrBounds(x, x / Pow2(k), n);
  }

  lemma DivShrinks(x: nat, d: nat)
    requires d >= 1
    ensures x / d <= x
  {
    var q, r := x / d, x % d;
    assert x == d * q + r;
    DivNat(x, d);
    if q >= 1 {
      MulAtLeast(q, d);
    }
  }

  /** The least power of two that is not below v. */
  ghost predicate NextPow2(v: nat, r: nat) {
    exists k: nat :: r == Pow2(k) && v <= r < 2 * v
  }

  /** No 32 consecutive zero bits below the highest of the n bits of x. */
  predicate NoLongGap(x: nat, n: nat) {
    forall j :: 0 <= j < n ==> Window(x, j, 32)
  }

  /** When rounding is exact, for values of any size: n is the number of bits of v - 1. */
  lemma RoundingIsExactIff(v: nat, n: nat)
    requires v >= 2 && n >= 1 && Pow2(n - 1) <= v - 1 < Pow2(n)
    ensures NextPow2(v, RoundNextPowerOf2(v)) <==> NoLongGap(v - 1, n)
  {
    hide Bit, Smear, Window;
    var x := v - 1;
    SmearBound(x, n);
    SmearWindow(x);
    OnesBelow(Smear(x), n);
    if NextPow2(v, RoundNextPowerOf2(v)) {
      var k: nat :| Smear(x) + 1 == Pow2(k) && v <= Pow2(k) < 2 * v;
      if k < n {
        Pow2Mono(k, n - 1);
      }
      Pow2Mono(n, k);
    }
    if NoLongGap(x, n) {
      assert Smear(x) + 1 == Pow2(n);
    }
  }

  lemma Pow2Bit(k: nat, j: nat)
    ensures Bit(Pow2(k), j) <==> j == k
  {
    ZeroHasNoBits(k);
    ZeroHasNoBits(j);
    hide Bit;
    AddPow2Bits(0, k, j);
  }

  /** Just above 2^32 rounding fails, and one further it is right again. */
  lemma RoundingAbove32Bits()
    ensures !NextPow2(TWO32 + 1, RoundNextPowerOf2(TWO32 + 1))
    ensures NextPow2(TWO32 + 2, RoundNextPowerOf2(TWO32 + 2))
  {
    Pow2Values();
    hide Bit, RoundNextPowerOf2, NextPow2;
    assert Pow2(33) == 2 * Pow2(32);
    RoundingIsExactIff(TWO32 + 1, 33);
    RoundingIsExactIff(TWO32 + 2, 33);
    assert !Window(TWO32, 0, 32) by {
      forall p | 0 <= p < 32
        ensures !Bit(TWO32, p)
      {
        Pow2Bit(32, p);
      }
    }
    var x := TWO32 + 1;
    forall j | 0 <= j < 33
      ensures Window(x, j, 32)
    {
      TopAndBottom(j);
    }
  }

  lemma TopAndBottom(j: nat)
    requires j < 33
    ensures Window(TWO32 + 1, j, 32)
  {
    Pow2Values();
    hide Bit;
    Pow2Bit(32, 0);
    Pow2Bit(32, 32);
    AddPow2Bits(TWO32, 0, 0);
    AddPow2Bits(TWO32, 0, 32);
    assert Bit(TWO32 + 1, 0) && Bit(TWO32 + 1, 32);
  }
}
