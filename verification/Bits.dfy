/** Bitwise operations on naturals, and the arithmetic they amount to. */
module Bits {

  function Pow2(k: nat): (p: nat)
    ensures p > 0
  {
    if k == 0 then 1 else 2 * Pow2(k - 1)
  }

  /** `n` shifted left and right by `k` places. */
  function Shl(n: nat, k: nat): nat {
    if k == 0 then n else 2 * Shl(n, k - 1)
  }

  function Shr(n: nat, k: nat): nat {
    if k == 0 then n else Shr(n / 2, k - 1)
  }

  /** The low `w` bits of `n`. */
  function LowBits(n: nat, w: nat): nat {
    if w == 0 then 0 else 2 * LowBits(n / 2, w - 1) + n % 2
  }

  /** Bit `k` of `n`. */
  predicate Bit(n: nat, k: nat) {
    if k == 0 then n % 2 == 1 else Bit(n / 2, k - 1)
  }

  function And(a: nat, b: nat): nat {
    if a == 0 || b == 0 then 0
    else 2 * And(a / 2, b / 2) + (if a % 2 == 1 && b % 2 == 1 then 1 else 0)
  }

  function Or(a: nat, b: nat): nat
    decreases a
  {
    if a == 0 then b
    else if b == 0 then a
    else 2 * Or(a / 2, b / 2) + (if a % 2 == 1 || b % 2 == 1 then 1 else 0)
  }

  function Xor(a: nat, b: nat): nat
    decreases a
  {
    if a == 0 then b
    else if b == 0 then a
    else 2 * Xor(a / 2, b / 2) + (if a % 2 != b % 2 then 1 else 0)
  }

  /** The bits of `a` that are not in `b`. */
  function Minus(a: nat, b: nat): nat
    decreases a
  {
    if a == 0 then 0
    else 2 * Minus(a / 2, b / 2) + (if a % 2 == 1 && b % 2 == 0 then 1 else 0)
  }

  /** A mask of `w` ones, `low` places up. */
  function Field(low: nat, w: nat): nat { Shl(Pow2(w) - 1, low) }

  /** Number of one bits. */
  function PopCount(n: nat): nat {
    if n == 0 then 0 else n % 2 + PopCount(n / 2)
  }

  // ---- Arithmetic the solver is not left to find ----

  lemma MulAssoc(a: int, b: int, c: int)
    ensures a * (b * c) == (a * b) * c
  {}

  lemma MulMono(a: nat, x: int, y: int)
    requires x <= y
    ensures a * x <= a * y
  {}

  /** Division with remainder has one answer. */
  lemma DivUnique(n: int, d: int, q: int, r: int)
    requires d > 0 && 0 <= r < d && n == d * q + r
    ensures n / d == q && n % d == r
  {
    var q', r' := n / d, n % d;
    assert n == d * q' + r';
    assert d * (q - q') == r' - r;
    if q > q' { MulMono(d, 1, q - q'); }
    if q < q' { MulMono(d, q - q', -1); }
  }

  lemma DivHalf(n: nat, d: nat)
    requires d > 0
    ensures n / 2 / d == n / (2 * d)
    ensures n % (2 * d) == 2 * (n / 2 % d) + n % 2
  {
    var q, r := n / 2 / d, n / 2 % d;
    assert n / 2 == d * q + r;
    MulAssoc(2, d, q);
    DivUnique(n, 2 * d, q, 2 * r + n % 2);
  }

  lemma {:induction false} Pow2Add(a: nat, b: nat)
    ensures Pow2(a + b) == Pow2(a) * Pow2(b)
  {
    if a > 0 {
      Pow2Add(a - 1, b);
      MulAssoc(2, Pow2(a - 1), Pow2(b));
    }
  }

  lemma {:induction false} Pow2Monotonic(a: nat, b: nat)
    requires a <= b
    ensures Pow2(a) <= Pow2(b)
  {
    if a < b { Pow2Monotonic(a, b - 1); }
  }

  lemma Pow2At16()
    ensures Pow2(16) == 0x1_0000
  {
    assert Pow2(4) == 0x10;
    Pow2Add(4, 4);
    Pow2Add(8, 8);
  }

  lemma Pow2At32()
    ensures Pow2(31) == 0x8000_0000 && Pow2(32) == 0x1_0000_0000
  {
    hide *;
    Pow2At16();
    Pow2Add(16, 16);
    Pow2Succ(31);
  }

  lemma Pow2Succ(k: nat)
    ensures Pow2(k + 1) == 2 * Pow2(k)
  {}

  lemma {:induction false} ShlIsMul(n: nat, k: nat)
    ensures Shl(n, k) == n * Pow2(k)
  {
    if k > 0 {
      ShlIsMul(n, k - 1);
      MulAssoc(n, 2, Pow2(k - 1));
    }
  }

  lemma {:induction false} ShrIsDiv(n: nat, k: nat)
    ensures Shr(n, k) == n / Pow2(k)
  {
    if k > 0 {
      ShrIsDiv(n / 2, k - 1);
      DivHalf(n, Pow2(k - 1));
    }
  }

  lemma {:induction false} LowBitsIsMod(n: nat, w: nat)
    ensures LowBits(n, w) == n % Pow2(w)
  {
    if w > 0 {
      LowBitsIsMod(n / 2, w - 1);
      DivHalf(n, Pow2(w - 1));
    }
  }

  lemma Shl1(n: nat)
    ensures Shl(n, 1) == 2 * n
  {}

  lemma Shl6(n: nat)
    ensures Shl(n, 6) == 0x40 * n
  {
    ShlIsMul(n, 6);
    assert Pow2(6) == 0x40;
  }

  lemma Shl16(n: nat)
    ensures Shl(n, 16) == 0x1_0000 * n
  {
    hide *;
    Pow2At16();
    ShlIsMul(n, 16);
  }

  lemma Shl32(n: nat)
    ensures Shl(n, 32) == 0x1_0000_0000 * n
  {
    hide *;
    Pow2At32();
    ShlIsMul(n, 32);
  }

  lemma Shr16(n: nat)
    ensures Shr(n, 16) == n / 0x1_0000
  {
    hide *;
    Pow2At16();
    ShrIsDiv(n, 16);
  }

  lemma Shr31(n: nat)
    ensures Shr(n, 31) == n / 0x8000_0000
  {
    hide *;
    Pow2At32();
    ShrIsDiv(n, 31);
  }

  lemma Shr32(n: nat)
    ensures Shr(n, 32) == n / 0x1_0000_0000
  {
    hide *;
    Pow2At32();
    ShrIsDiv(n, 32);
  }

  // ---- Bits ----

  lemma {:induction false} BitOfZero(k: nat)
    ensures !Bit(0, k)
  {
    if k > 0 { BitOfZero(k - 1); }
  }

  /** Bit `k`, by division. */
  predicate HasBit(n: nat, k: nat) { n / Pow2(k) % 2 == 1 }

  lemma {:induction false} BitIs(n: nat, k: nat)
    ensures Bit(n, k) == HasBit(n, k)
  {
    if k > 0 {
      BitIs(n / 2, k - 1);
      DivHalf(n, Pow2(k - 1));
    }
  }

  lemma {:induction false} AndBit(a: nat, b: nat, k: nat)
    ensures Bit(And(a, b), k) == (Bit(a, k) && Bit(b, k))
  {
    if a == 0 || b == 0 {
      BitOfZero(k);
    } else if k > 0 {
      AndBit(a / 2, b / 2, k - 1);
    }
  }

  lemma {:induction false} OrBit(a: nat, b: nat, k: nat)
    ensures Bit(Or(a, b), k) == (Bit(a, k) || Bit(b, k))
    decreases k
  {
    if a == 0 || b == 0 {
      BitOfZero(k);
    } else if k > 0 {
      OrBit(a / 2, b / 2, k - 1);
    }
  }

  lemma {:induction false} XorBit(a: nat, b: nat, k: nat)
    ensures Bit(Xor(a, b), k) == (Bit(a, k) != Bit(b, k))
    decreases k
  {
    if a == 0 || b == 0 {
      BitOfZero(k);
    } else if k > 0 {
      XorBit(a / 2, b / 2, k - 1);
    }
  }

  /** Two naturals with the same bits are the same natural. */
  lemma {:induction false} SameBits(a: nat, b: nat)
    requires forall k: nat :: Bit(a, k) == Bit(b, k)
    ensures a == b
    decreases a + b
  {
    assert Bit(a, 0) == Bit(b, 0);
    if a + b > 0 {
      forall k: nat ensures Bit(a / 2, k) == Bit(b / 2, k) {
        assert Bit(a, k + 1) == Bit(b, k + 1);
      }
      SameBits(a / 2, b / 2);
    }
  }

  lemma {:induction false} ShrBit(n: nat, s: nat, k: nat)
    ensures Bit(Shr(n, s), k) == Bit(n, s + k)
  {
    if s > 0 { ShrBit(n / 2, s - 1, k); }
  }

  lemma {:induction false} ShlBit(n: nat, s: nat, k: nat)
    ensures Bit(Shl(n, s), k) == (k >= s && Bit(n, k - s))
  {
    if s > 0 {
      if k > 0 { ShlBit(n, s - 1, k - 1); }
    }
  }

  lemma {:induction false} LowBit(n: nat, w: nat, k: nat)
    ensures Bit(LowBits(n, w), k) == (k < w && Bit(n, k))
    decreases w
  {
    if w == 0 {
      BitOfZero(k);
    } else if k > 0 {
      LowBit(n / 2, w - 1, k - 1);
    }
  }

  lemma {:induction false} LowBitsBound(n: nat, w: nat)
    ensures LowBits(n, w) < Pow2(w)
    ensures n < Pow2(w) ==> LowBits(n, w) == n
  {
    if w > 0 { LowBitsBound(n / 2, w - 1); }
  }

  /** Bits that cannot meet add. */
  lemma {:induction false} OrIsSum(k: nat, a: nat, b: nat)
    requires b < Pow2(k)
    ensures Or(Shl(a, k), b) == Shl(a, k) + b == Or(b, Shl(a, k))
    decreases k
  {
    if k > 0 {
      OrIsSum(k - 1, a, b / 2);
    }
  }

  /** Masking with ones keeps the low bits. */
  lemma {:induction false} AndOnes(n: nat, k: nat)
    ensures And(n, Pow2(k) - 1) == LowBits(n, k)
    decreases k
  {
    if k > 0 {
      assert (Pow2(k) - 1) / 2 == Pow2(k - 1) - 1;
      AndOnes(n / 2, k - 1);
      if n == 0 { LowBitsBound(0, k); }
    }
  }

  lemma {:induction false} MinusBit(a: nat, b: nat, k: nat)
    ensures Bit(Minus(a, b), k) == (Bit(a, k) && !Bit(b, k))
    decreases k
  {
    if a == 0 {
      BitOfZero(k);
    } else if k > 0 {
      MinusBit(a / 2, b / 2, k - 1);
    }
  }

  lemma {:induction false} OnesBit(w: nat, k: nat)
    ensures Bit(Pow2(w) - 1, k) == (k < w)
    decreases w
  {
    if w == 0 {
      BitOfZero(k);
    } else {
      assert (Pow2(w) - 1) / 2 == Pow2(w - 1) - 1;
      if k > 0 { OnesBit(w - 1, k - 1); }
    }
  }

  lemma FieldBit(low: nat, w: nat, k: nat)
    ensures Bit(Field(low, w), k) == (low <= k < low + w)
  {
    hide Bit, Shl, Pow2;
    ShlBit(Pow2(w) - 1, low, k);
    if k >= low { OnesBit(w, k - low); }
  }

  /** A natural below 2^w has no bit from `w` on. */
  lemma {:induction false} BitsBelow(n: nat, w: nat, k: nat)
    requires n < Pow2(w) && k >= w
    ensures !Bit(n, k)
    decreases w
  {
    if w == 0 {
      BitOfZero(k);
    } else {
      BitsBelow(n / 2, w - 1, k - 1);
    }
  }

  /** A natural without bits from `w` on is below 2^w. */
  lemma {:induction false} BelowBits(n: nat, w: nat)
    requires forall k: nat :: k >= w ==> !Bit(n, k)
    ensures n < Pow2(w)
    decreases w
  {
    if w == 0 {
      forall k: nat ensures Bit(n, k) == Bit(0, k) { BitOfZero(k); }
      SameBits(n, 0);
    } else {
      forall k: nat | k >= w - 1 ensures !Bit(n / 2, k) { assert !Bit(n, k + 1); }
      BelowBits(n / 2, w - 1);
    }
  }

  /** The bits of `a` are bits of `b`. */
  ghost predicate Inside(a: nat, b: nat) {
    forall k: nat :: Bit(a, k) ==> Bit(b, k)
  }

  /** No bit of `a` is a bit of `b`. */
  ghost predicate Apart(a: nat, b: nat) {
    forall k: nat :: !(Bit(a, k) && Bit(b, k))
  }

  lemma SomeBit(n: nat)
    requires n > 0
    ensures exists k: nat :: Bit(n, k)
  {
    if forall k: nat :: !Bit(n, k) {
      forall k: nat ensures Bit(n, k) == Bit(0, k) { BitOfZero(k); }
      SameBits(n, 0);
    }
  }

  /** Two masks are apart exactly when their conjunction is zero. */
  lemma AndIsZero(a: nat, b: nat)
    ensures And(a, b) == 0 <==> Apart(a, b)
  {
    hide Bit, And;
    if And(a, b) == 0 {
      forall k: nat ensures !(Bit(a, k) && Bit(b, k)) {
        AndBit(a, b, k);
        BitOfZero(k);
      }
    } else {
      SomeBit(And(a, b));
      var k: nat :| Bit(And(a, b), k);
      AndBit(a, b, k);
    }
  }

  lemma MinusIsZero(a: nat, b: nat)
    ensures Minus(a, b) == 0 <==> Inside(a, b)
  {
    hide Bit, Minus;
    if Minus(a, b) == 0 {
      forall k: nat | Bit(a, k) ensures Bit(b, k) {
        MinusBit(a, b, k);
        BitOfZero(k);
      }
    } else {
      SomeBit(Minus(a, b));
      var k: nat :| Bit(Minus(a, b), k);
      MinusBit(a, b, k);
    }
  }

  lemma AndIsSelf(a: nat, b: nat)
    ensures And(a, b) == a <==> Inside(a, b)
  {
    hide Bit, And;
    if And(a, b) == a {
      forall k: nat | Bit(a, k) ensures Bit(b, k) { AndBit(a, b, k); }
    }
    if Inside(a, b) {
      forall k: nat ensures Bit(And(a, b), k) == Bit(a, k) { AndBit(a, b, k); }
      SameBits(And(a, b), a);
    }
  }

  // ---- Counting ----

  lemma {:induction false} PopCountMonotonic(a: nat, b: nat)
    requires Inside(a, b)
    ensures PopCount(a) <= PopCount(b)
    ensures a != b ==> PopCount(a) < PopCount(b)
    decreases a + b
  {
    assert Bit(a, 0) ==> Bit(b, 0);
    if a + b > 0 {
      forall k: nat | Bit(a / 2, k) ensures Bit(b / 2, k) { assert Bit(a, k + 1) && Bit(b, k + 1); }
      PopCountMonotonic(a / 2, b / 2);
    }
  }
}
