/**
 * Bitwise exclusive-or on natural numbers, the meaning of Rust's `^` on
 * `u8`, `u32` and `u64` operands, and the fact the circuit relies on:
 * XOR acts on each byte of a number independently.
 */
module Bitwise {

  /** Bitwise XOR, one binary digit at a time from the least significant. */
  function Xor(a: nat, b: nat): nat
    decreases a + b
  {
    if a == 0 && b == 0 then 0
    else (if a % 2 == b % 2 then 0 else 1) + 2 * Xor(a / 2, b / 2)
  }

  function Pow2(k: nat): (p: nat)
    ensures p > 0
  {
    if k == 0 then 1 else 2 * Pow2(k - 1)
  }

  /** The low `k` bits of `a`, i.e. `a mod 2^k`, built bit by bit. */
  function Low(a: nat, k: nat): nat
  {
    if k == 0 then 0 else a % 2 + 2 * Low(a / 2, k - 1)
  }

  /** `a` shifted right by `k` bits. */
  function High(a: nat, k: nat): nat
  {
    if k == 0 then a else High(a / 2, k - 1)
  }

  lemma DoubleProduct(p: nat, x: nat)
    ensures 2 * (p * x) == (2 * p) * x
  {
  }

  /** Unfolding one step of Xor also holds when both operands are zero. */
  lemma XorStep(a: nat, b: nat)
    ensures Xor(a, b) == (if a % 2 == b % 2 then 0 else 1) + 2 * Xor(a / 2, b / 2)
  {
  }

  /** Every number is its low `k` bits plus `2^k` times its high part. */
  lemma {:induction false} SplitBits(a: nat, k: nat)
    ensures Low(a, k) < Pow2(k)
    ensures a == Low(a, k) + Pow2(k) * High(a, k)
  {
    if k > 0 {
      SplitBits(a / 2, k - 1);
      var p := Pow2(k - 1);
      var h := High(a / 2, k - 1);
      DoubleProduct(p, h);
    }
  }

  /** XOR of numbers below `2^k` stays below `2^k`. */
  lemma {:induction false} XorBound(a: nat, b: nat, k: nat)
    requires a < Pow2(k) && b < Pow2(k)
    ensures Xor(a, b) < Pow2(k)
  {
    if k == 0 {
      assert a == 0 && b == 0;
    } else {
      XorStep(a, b);
      XorBound(a / 2, b / 2, k - 1);
    }
  }

  /** XOR distributes over the split of its operands at bit `k`. */
  lemma {:induction false} XorSplit(a: nat, b: nat, k: nat)
    ensures Xor(a, b) == Xor(Low(a, k), Low(b, k)) + Pow2(k) * Xor(High(a, k), High(b, k))
  {
    if k > 0 {
      var ha, hb := a / 2, b / 2;
      var la, lb := Low(a, k), Low(b, k);
      LowStep(a, k);
      LowStep(b, k);
      XorStep(a, b);
      XorStep(la, lb);
      XorSplit(ha, hb, k - 1);
      Regroup(Xor(a, b), Xor(ha, hb), if a % 2 == b % 2 then 0 else 1,
              Xor(Low(ha, k - 1), Low(hb, k - 1)), Pow2(k - 1),
              Xor(High(ha, k - 1), High(hb, k - 1)));
    }
  }

  lemma LowStep(a: nat, k: nat)
    requires k > 0
    ensures Low(a, k) % 2 == a % 2 && Low(a, k) / 2 == Low(a / 2, k - 1)
  {
  }

  /** The arithmetic step of XorSplit: from `x = bit + 2y` and `y = l + p h`,
   *  regroup `x` as `(bit + 2l) + 2p h`. */
  lemma Regroup(x: int, y: int, bit: int, l: int, p: int, h: int)
    requires x == bit + 2 * y && y == l + p * h
    ensures x == (bit + 2 * l) + (2 * p) * h
  {
  }

  /** `a ^ a == 0`. */
  lemma {:induction false} XorSelf(a: nat)
    ensures Xor(a, a) == 0
  {
    if a > 0 {
      XorSelf(a / 2);
    }
  }

  /** XOR of two bytes is a byte. */
  lemma XorByteBound(a: nat, b: nat)
    requires a < 256 && b < 256
    ensures Xor(a, b) < 256
  {
    assert Pow2(8) == 256;
    XorBound(a, b, 8);
  }

  /** With `k = 8`, `Low` and `High` are the remainder and quotient by 256. */
  lemma LowHighByte(a: nat)
    ensures Low(a, 8) == a % 256 && High(a, 8) == a / 256
  {
    assert Pow2(8) == 256;
    SplitBits(a, 8);
    DivModUnique(a, Low(a, 8), High(a, 8));
  }

  lemma DivModUnique(a: nat, l: nat, h: nat)
    requires l < 256 && a == l + 256 * h
    ensures l == a % 256 && h == a / 256
  {
  }

  /** XOR works byte by byte: the low byte of `a ^ b` is the XOR of the low
   *  bytes, and the rest is the XOR of the rest. */
  lemma XorBytes(a: nat, b: nat)
    ensures Xor(a, b) == Xor(a % 256, b % 256) + 256 * Xor(a / 256, b / 256)
    ensures Xor(a % 256, b % 256) < 256
  {
    assert Pow2(8) == 256;
    LowHighByte(a);
    LowHighByte(b);
    XorSplit(a, b, 8);
    XorByteBound(a % 256, b % 256);
  }
}
