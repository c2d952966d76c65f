/**
 Bitwise AND and powers of two over natural numbers, with the arithmetic meaning of the
 masks the code generator emits. Words are unbounded here; every width is made explicit
 by the callers.
 */
module Bits {

  const TWO8: nat := 0x100
  const TWO16: nat := 0x1_0000
  const TWO24: nat := 0x100_0000
  const TWO31: nat := 0x8000_0000
  const TWO32: nat := 0x1_0000_0000
  const TWO64: nat := 0x1_0000_0000_0000_0000

  type byte = x: int | 0 <= x < 256

  function Pow2(k: nat): (r: nat)
    ensures r >= 1
  {
    if k == 0 then 1 else 2 * Pow2(k - 1)
  }

  function BitAnd(a: nat, b: nat): nat
    decreases a
  {
    if a == 0 || b == 0 then 0
    else (if a % 2 == 1 && b % 2 == 1 then 1 else 0) + 2 * BitAnd(a / 2, b / 2)
  }

  predicate Bit(m: nat, k: nat) {
    m / Pow2(k) % 2 == 1
  }

  lemma {:induction false} Pow2Add(j: nat, k: nat)
    ensures Pow2(j + k) == Pow2(j) * Pow2(k)
  {
    if j == 0 {
    } else {
      Pow2Add(j - 1, k);
      assert j + k - 1 == j - 1 + k;
      assert 2 * (Pow2(j - 1) * Pow2(k)) == 2 * Pow2(j - 1) * Pow2(k);
    }
  }

  lemma DivDiv(m: nat, b: nat)
    requires b >= 1
    ensures m / (2 * b) == m / 2 / b
  {
    var q, r := m / 2 / b, m / 2 % b;
    assert m / 2 == q * b + r;
    assert m == 2 * (q * b + r) + m % 2;
    assert m == (2 * b) * q + (2 * r + m % 2) by {
      assert 2 * (q * b) == (2 * b) * q;
    }
    DivUnique(m, 2 * b, q, 2 * r + m % 2);
  }

  lemma MulAtLeast(d: int, k: int)
    requires d > 0 && k >= 1
    ensures d * k >= d
  {
  }

  lemma MulSub(d: int, x: int, y: int)
    ensures d * x - d * y == d * (x - y)
  {
  }

  lemma DivUnique(m: int, d: int, q: int, r: int)
    requires d > 0 && m == d * q + r && 0 <= r < d
    ensures m / d == q && m % d == r
  {
    var q', r' := m / d, m % d;
    assert d * q' + r' == d * q + r;
    MulSub(d, q, q');
    MulSub(d, q', q);
    if q > q' {
      MulAtLeast(d, q - q');
    } else if q < q' {
      MulAtLeast(d, q' - q);
    }
  }

  lemma {:induction false} AndBound(a: nat, b: nat)
    ensures BitAnd(a, b) <= a && BitAnd(a, b) <= b
    decreases a
  {
    if a != 0 && b != 0 {
      AndBound(a / 2, b / 2);
    }
  }

  /** Halving commutes with taking a remainder modulo a doubled modulus. */
  lemma ModHalf(a: nat, h: nat)
    requires h >= 1
    ensures a % (2 * h) == 2 * (a / 2 % h) + a % 2
  {
    var q, r := a / 2 / h, a / 2 % h;
    assert a / 2 == h * q + r;
    assert 2 * (h * q) == (2 * h) * q;
    DivUnique(a, 2 * h, q, 2 * r + a % 2);
  }

  /** Masking with a run of low ones is a remainder. */
  lemma {:induction false} AndLowOnes(a: nat, k: nat)
    ensures BitAnd(a, Pow2(k) - 1) == a % Pow2(k)
    decreases k
  {
    AndUnfold(a, Pow2(k) - 1);
    if k == 0 {
    } else {
      var h := Pow2(k - 1);
      assert (2 * h - 1) / 2 == h - 1 && (2 * h - 1) % 2 == 1;
      AndLowOnes(a / 2, k - 1);
      ModHalf(a, h);
    }
  }

  /** A single bit ANDed with a mask tests that bit of the mask. */
  lemma {:induction false} AndSingleBit(k: nat, m: nat)
    ensures BitAnd(Pow2(k), m) == if Bit(m, k) then Pow2(k) else 0
    decreases k
  {
    if k == 0 {
      assert BitAnd(0, m / 2) == 0;
    } else {
      assert Pow2(k) / 2 == Pow2(k - 1) && Pow2(k) % 2 == 0;
      AndSingleBit(k - 1, m / 2);
      DivDiv(m, Pow2(k - 1));
    }
  }

  lemma HalfOfSum(a: nat, z: nat)
    ensures (a + 2 * z) / 2 == a / 2 + z && (a + 2 * z) % 2 == a % 2
  {
  }

  lemma MulAssoc2(h: int, x: int)
    ensures (2 * h) * x == 2 * (h * x)
  {
  }

  /** x shifted left by k places. */
  function Shl(k: nat, x: nat): nat {
    if k == 0 then x else 2 * Shl(k - 1, x)
  }

  lemma {:induction false} ShlIsProduct(k: nat, x: nat)
    ensures Shl(k, x) == Pow2(k) * x
  {
    if k == 0 {
    } else {
      ShlIsProduct(k - 1, x);
      MulAssoc2(Pow2(k - 1), x);
    }
  }

  lemma AndLimbsStep(a: nat, p: nat, b: nat, q: nat, c: nat)
    requires BitAnd(a / 2 + p, b / 2 + q) == BitAnd(a / 2, b / 2) + c
    ensures BitAnd(a + 2 * p, b + 2 * q) == BitAnd(a, b) + 2 * c
  {
    HalfOfSum(a, p);
    HalfOfSum(b, q);
    AndUnfold(a + 2 * p, b + 2 * q);
    AndUnfold(a, b);
  }

  /** AND works limb by limb. */
  lemma {:induction false} AndLimbs(k: nat, a: nat, x: nat, b: nat, y: nat)
    requires a < Pow2(k) && b < Pow2(k)
    ensures BitAnd(a + Shl(k, x), b + Shl(k, y)) == BitAnd(a, b) + Shl(k, BitAnd(x, y))
    decreases k
  {
    if k == 0 {
    } else {
      AndLimbs(k - 1, a / 2, x, b / 2, y);
      AndLimbsStep(a, Shl(k - 1, x), b, Shl(k - 1, y), Shl(k - 1, BitAnd(x, y)));
    }
  }

  lemma AndUnfold(a: nat, b: nat)
    ensures BitAnd(a, b) == (if a % 2 == 1 && b % 2 == 1 then 1 else 0) + 2 * BitAnd(a / 2, b / 2)
  {
  }

  lemma {:induction false} AndComm(a: nat, b: nat)
    ensures BitAnd(a, b) == BitAnd(b, a)
    decreases a
  {
    AndUnfold(a, b);
    AndUnfold(b, a);
    if a != 0 {
      AndComm(a / 2, b / 2);
    }
  }

  /** Clearing the low j of k bits keeps the quotient. */
  lemma {:induction false} AndHighOnes(a: nat, j: nat, k: nat)
    requires j <= k && a < Pow2(k)
    ensures Pow2(j) <= Pow2(k)
    ensures BitAnd(a, Pow2(k) - Pow2(j)) == Pow2(j) * (a / Pow2(j))
    decreases j, k
  {
    Pow2Mono(j, k);
    hide BitAnd;
    if j == 0 {
      AndLowOnes(a, k);
      ModNoop(a, Pow2(k));
      assert a / 1 == a;
    } else {
      var h, g := Pow2(k - 1), Pow2(j - 1);
      AndHighOnes(a / 2, j - 1, k - 1);
      AndHighStep(a, h, g);
    }
  }

  lemma AndHighStep(a: nat, h: nat, g: nat)
    requires h >= g >= 1 && BitAnd(a / 2, h - g) == g * (a / 2 / g)
    ensures BitAnd(a, 2 * h - 2 * g) == (2 * g) * (a / (2 * g))
  {
    hide BitAnd;
    var m := h - g;
    assert 2 * h - 2 * g == 2 * m && 2 * m / 2 == m && 2 * m % 2 == 0;
    AndUnfold(a, 2 * m);
    DivDiv(a, g);
    MulAssoc2(g, a / 2 / g);
  }

  lemma DivNat(x: nat, d: nat)
    requires d >= 1
    ensures x / d >= 0
  {
    var q, r := x / d, x % d;
    assert x == d * q + r;
    if q < 0 {
      MulNegative(d, q);
    }
  }

  lemma MulNegative(d: int, k: int)
    requires d > 0 && k <= -1
    ensures d * k <= -d
  {
  }

  lemma ModNoop(a: nat, b: nat)
    requires a < b
    ensures a % b == a && a / b == 0
  {
    DivUnique(a, b, 0, a);
  }

  lemma {:induction false} Pow2Mono(j: nat, k: nat)
    requires j <= k
    ensures Pow2(j) <= Pow2(k)
    decreases k
  {
    if j < k {
      Pow2Mono(j, k - 1);
    }
  }

  lemma Pow2Small()
    ensures Pow2(1) == 2 && Pow2(2) == 4 && Pow2(3) == 8 && Pow2(4) == 16
    ensures Pow2(5) == 32 && Pow2(6) == 64 && Pow2(7) == 128 && Pow2(8) == TWO8
  {
    assert Pow2(2) == 2 * Pow2(1);
    assert Pow2(4) == 2 * Pow2(3);
    assert Pow2(6) == 2 * Pow2(5);
    assert Pow2(8) == 2 * Pow2(7);
  }

  lemma Pow2Values()
    ensures Pow2(16) == TWO16 && Pow2(24) == TWO24 && Pow2(32) == TWO32
    ensures Pow2(48) == TWO16 * TWO32 && Pow2(64) == TWO64
  {
    Pow2Small();
    Pow2Add(8, 8);
    Pow2Add(8, 16);
    Pow2Add(8, 24);
    Pow2Add(16, 32);
    Pow2Add(16, 48);
  }

  // ---- single bits ----

  lemma BitAtZero(m: nat)
    ensures Bit(m, 0) == (m % 2 == 1)
  {
    assert m / 1 == m;
  }

  lemma BitStep(m: nat, j: nat)
    requires j > 0
    ensures Bit(m, j) == Bit(m / 2, j - 1)
  {
    DivDiv(m, Pow2(j - 1));
  }

  lemma {:induction false} AddPow2Bits(m: nat, k: nat, j: nat)
    requires !Bit(m, k)
    ensures Bit(m + Pow2(k), j) == (j == k || Bit(m, j))
    decreases k
  {
    hide Bit;
    var p := Pow2(k);
    if k == 0 {
      BitAtZero(m);
      if j == 0 {
        BitAtZero(m + 1);
      } else {
        BitStep(m, j);
        BitStep(m + 1, j);
      }
    } else {
      BitStep(m, k);
      assert (m + p) / 2 == m / 2 + Pow2(k - 1) && (m + p) % 2 == m % 2;
      if j == 0 {
        BitAtZero(m);
        BitAtZero(m + p);
      } else {
        BitStep(m, j);
        BitStep(m + p, j);
        AddPow2Bits(m / 2, k - 1, j - 1);
      }
    }
  }

  lemma ZeroHasNoBits(k: nat)
    ensures !Bit(0, k)
  {
    ModNoop(0, Pow2(k));
  }
}
