/** Machine integers and bit operations shared by the numeric modules: powers
    of two, the bounds of `i128`, `u128` and the signed 512-bit integer, and
    `|`, `^` and bit tests on naturals, defined digit by digit in base 2. */
module Numerics {

  function Pow2(n: nat): (p: nat)
    ensures p >= 1
  {
    if n == 0 then 1 else 2 * Pow2(n - 1)
  }

  lemma {:induction false} Pow2Add(a: nat, b: nat)
    ensures Pow2(a + b) == Pow2(a) * Pow2(b)
  {
    if a > 0 {
      Pow2Add(a - 1, b);
    }
  }

  lemma {:induction false} Pow2Monotone(a: nat, b: nat)
    requires a <= b
    ensures Pow2(a) <= Pow2(b)
  {
    if a < b {
      Pow2Monotone(a, b - 1);
    }
  }

  const TwoTo64: nat := 18446744073709551616
  const TwoTo127: nat := 170141183460469231731687303715884105728
  const TwoTo128: nat := 340282366920938463463374607431768211456
  const TwoTo511: nat :=
    6703903964971298549787012499102923063739682910296196688861780721860882015036773488400937149083451713845015929093243025426876941405973284973216824503042048

  /** The literal constants are the powers of two they are named after. */
  lemma PowersOfTwo()
    ensures Pow2(64) == TwoTo64 && Pow2(127) == TwoTo127 && Pow2(128) == TwoTo128
    ensures Pow2(511) == TwoTo511
  {
    Pow2To128();
    Pow2To511();
  }

  lemma Pow2To16()
    ensures Pow2(16) == 65536
  {
    assert Pow2(1) == 2;
    assert Pow2(2) == 4;
    assert Pow2(3) == 8;
    assert Pow2(4) == 16;
    Pow2Add(4, 4);
    assert Pow2(8) == 256;
    Pow2Add(8, 8);
  }

  lemma Pow2To64()
    ensures Pow2(64) == TwoTo64
  {
    Pow2To16();
    Pow2Add(16, 16);
    var p32 := Pow2(32);
    assert p32 == 4294967296;
    Pow2Add(32, 32);
    assert Pow2(64) == p32 * p32;
  }

  lemma Pow2To128()
    ensures Pow2(64) == TwoTo64 && Pow2(127) == TwoTo127 && Pow2(128) == TwoTo128
  {
    Pow2To64();
    Pow2Add(64, 64);
    assert Pow2(128) == 2 * Pow2(127);
  }

  lemma Pow2To511()
    ensures Pow2(511) == TwoTo511
  {
    Pow2To128();
    Pow2Add(128, 128);
    var p256 := Pow2(256);
    assert p256 == TwoTo128 * TwoTo128;
    Pow2Add(255, 256);
    assert Pow2(256) == 2 * Pow2(255);
    assert Pow2(511) == Pow2(255) * p256;
  }

  /** `i128` and `u128` */
  const I128Min: int := -170141183460469231731687303715884105728
  const I128Max: int := TwoTo127 - 1
  const U128Max: int := TwoTo128 - 1
  type I128 = x: int | I128Min <= x <= I128Max
  type U128 = x: int | 0 <= x <= U128Max

  /** fastnum's signed 512-bit integer `I512` */
  const I512Min: int :=
    -6703903964971298549787012499102923063739682910296196688861780721860882015036773488400937149083451713845015929093243025426876941405973284973216824503042048
  const I512Max: int := TwoTo511 - 1
  type I512 = x: int | I512Min <= x <= I512Max

  /** Bit k of v: the k-th binary digit, counting from the least significant. */
  predicate Bit(v: nat, k: nat)
  {
    if k == 0 then v % 2 == 1 else Bit(v / 2, k - 1)
  }

  /** No bit of 0 is set. */
  lemma {:induction false} ZeroBits(k: nat)
    ensures !Bit(0, k)
  {
    if k > 0 {
      ZeroBits(k - 1);
    }
  }

  /** Bitwise or of two naturals (`|`). */
  function Or(a: nat, b: nat): nat
    decreases a + b
  {
    if a == 0 && b == 0 then 0
    else 2 * Or(a / 2, b / 2) + (if a % 2 == 1 || b % 2 == 1 then 1 else 0)
  }

  /** Bitwise exclusive or of two naturals (`^`). */
  function Xor(a: nat, b: nat): nat
    decreases a + b
  {
    if a == 0 && b == 0 then 0
    else 2 * Xor(a / 2, b / 2) + (if a % 2 != b % 2 then 1 else 0)
  }

  /** Halving `2x + c` for a binary digit c gives back x and the digit. */
  lemma Halve(x: nat, c: nat)
    requires c < 2
    ensures (2 * x + c) / 2 == x && (2 * x + c) % 2 == c
  {
  }

  /** A bit of `a | b` is set iff it is set in `a` or in `b`. */
  lemma {:induction false} OrBits(a: nat, b: nat, k: nat)
    ensures Bit(Or(a, b), k) <==> Bit(a, k) || Bit(b, k)
    decreases k
  {
    if a == 0 && b == 0 {
      ZeroBits(k);
    } else {
      var c := if a % 2 == 1 || b % 2 == 1 then 1 else 0;
      Halve(Or(a / 2, b / 2), c);
      if k > 0 {
        OrBits(a / 2, b / 2, k - 1);
      }
    }
  }

  /** A bit of `a ^ b` is set iff it is set in exactly one of them. */
  lemma {:induction false} XorBits(a: nat, b: nat, k: nat)
    ensures Bit(Xor(a, b), k) <==> Bit(a, k) != Bit(b, k)
    decreases k
  {
    if a == 0 && b == 0 {
      ZeroBits(k);
    } else {
      var c := if a % 2 != b % 2 then 1 else 0;
      Halve(Xor(a / 2, b / 2), c);
      if k > 0 {
        XorBits(a / 2, b / 2, k - 1);
      }
    }
  }

  /** `x ^ m ^ m == x` */
  lemma {:induction false} XorTwice(a: nat, m: nat)
    ensures Xor(Xor(a, m), m) == a
    decreases a + m
  {
    if a == 0 && m == 0 {
    } else {
      var c := if a % 2 != m % 2 then 1 else 0;
      Halve(Xor(a / 2, m / 2), c);
      XorTwice(a / 2, m / 2);
    }
  }

  /** A value below 2^n, and `|` and `^` of two such values, stay below 2^n. */
  lemma {:induction false} BitOpsBelow(a: nat, b: nat, n: nat)
    requires a < Pow2(n) && b < Pow2(n)
    ensures Or(a, b) < Pow2(n) && Xor(a, b) < Pow2(n)
    decreases n
  {
    if a == 0 && b == 0 {
    } else if n == 0 {
    } else {
      BitOpsBelow(a / 2, b / 2, n - 1);
    }
  }

  /** The mask of the low n bits, `(1 << n) - 1`. */
  function LowMask(n: nat): nat
  {
    Pow2(n) - 1
  }

  /** Exactly the bits below n are set in the mask. */
  lemma {:induction false} LowMaskBits(n: nat, k: nat)
    ensures Bit(LowMask(n), k) <==> k < n
    decreases k
  {
    if k == 0 {
      if n > 0 { assert Pow2(n) % 2 == 0; }
    } else {
      if n == 0 {
        ZeroBits(k - 1);
      } else {
        assert LowMask(n) / 2 == LowMask(n - 1);
        LowMaskBits(n - 1, k - 1);
      }
    }
  }

  /** One step of the mask loop: `mask | (1 << n)` with `mask` the low-n mask
      is the low-(n + 1) mask. */
  lemma {:induction false} LowMaskStep(n: nat)
    ensures Or(LowMask(n), Pow2(n)) == LowMask(n + 1)
    decreases n
  {
    if n == 0 {
      assert Or(0, 1) == 2 * Or(0, 0) + 1;
    } else {
      assert LowMask(n) / 2 == LowMask(n - 1);
      assert Pow2(n) / 2 == Pow2(n - 1);
      LowMaskStep(n - 1);
      assert LowMask(n + 1) == 2 * LowMask(n) + 1;
    }
  }

  /** The number of significant bits of v, `BITS - leading_zeros`. */
  function BitLength(v: nat): (n: nat)
    ensures v < Pow2(n)
    ensures v > 0 ==> n >= 1 && Pow2(n - 1) <= v
  {
    if v == 0 then 0 else 1 + BitLength(v / 2)
  }

  /** A value below 2^w has at most w significant bits. */
  lemma {:induction false} BitLengthAtMost(v: nat, w: nat)
    requires v < Pow2(w)
    ensures BitLength(v) <= w
  {
    if BitLength(v) > w {
      Pow2Monotone(w, BitLength(v) - 1);
    }
  }
}
