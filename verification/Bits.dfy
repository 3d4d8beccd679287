/** Bitwise operators on unbounded naturals, and the facts that let a bit pattern be
    reasoned about one bit at a time. */
module Bits {

  type byte = x: nat | x < 256

  const WORD: nat := 0x1_0000_0000_0000_0000  // 2^64, the range of std::size_t

  /** Arithmetic of `std::size_t`: the value modulo `2^64`. */
  function Wrap(x: int): (r: nat)
    ensures r < WORD
  {
    if 0 <= x < WORD then x else x % WORD
  }

  lemma WrapIsCongruent(x: int)
    ensures (Wrap(x) - x) % WORD == 0
  {
  }

  /** Conversion to `unsigned char`: the value modulo `256`. */
  function ToByte(x: nat): byte {
    if x < 256 then x else x % 256
  }

  function Pow2(n: nat): (p: nat)
    ensures p >= 1
  {
    if n == 0 then 1 else 2 * Pow2(n - 1)
  }

  predicate Bit(x: nat, i: nat)
    decreases i
  {
    if i == 0 then x % 2 == 1 else Bit(x / 2, i - 1)
  }

  function Or(a: nat, b: nat): nat
    decreases a + b
  {
    if a == 0 && b == 0 then 0
    else 2 * Or(a / 2, b / 2) + if a % 2 == 1 || b % 2 == 1 then 1 else 0
  }

  function And(a: nat, b: nat): nat
    decreases a + b
  {
    if a == 0 || b == 0 then 0
    else 2 * And(a / 2, b / 2) + if a % 2 == 1 && b % 2 == 1 then 1 else 0
  }

  function Shl(x: nat, n: nat): (r: nat)
    ensures x >= 1 ==> r >= 1
    decreases n, x
  {
    if n == 0 then x else 2 * Shl(x, n - 1)
  }

  function Shr(x: nat, n: nat): nat
    decreases n, x
  {
    if n == 0 then x else Shr(x / 2, n - 1)
  }

  /** The mask with the `n` lowest bits set, written in the source as `(1 << n) - 1`. */
  function Ones(n: nat): nat {
    Shl(1, n) - 1
  }

  lemma {:induction false} ShlPow(x: nat, n: nat)
    ensures Shl(x, n) == x * Pow2(n)
    decreases n
  {
    if n != 0 {
      ShlPow(x, n - 1);
      assert x * Pow2(n) == 2 * (x * Pow2(n - 1));
    }
  }

  lemma Pow2Values()
    ensures Pow2(3) == 8 && Pow2(6) == 64 && Pow2(7) == 128 && Pow2(8) == 256
    ensures Pow2(16) == 0x1_0000 && Pow2(24) == 0x100_0000
    ensures Pow2(31) == 0x8000_0000 && Pow2(32) == 0x1_0000_0000
    ensures Pow2(63) == 0x8000_0000_0000_0000 && Pow2(64) == WORD
  {
    assert Pow2(8) == 256;
    Pow2Add(8, 8);
    Pow2Add(8, 16);
    Pow2Add(8, 24);
    Pow2Add(32, 31);
    Pow2Add(32, 32);
  }

  lemma {:induction false} Pow2Add(a: nat, b: nat)
    ensures Pow2(a + b) == Pow2(a) * Pow2(b)
  {
    if a != 0 {
      Pow2Add(a - 1, b);
    }
  }

  lemma {:induction false} Pow2Mono(a: nat, b: nat)
    requires a <= b
    ensures Pow2(a) <= Pow2(b)
    ensures a < b ==> 2 * Pow2(a) <= Pow2(b)
    decreases b - a
  {
    if a < b {
      Pow2Mono(a, b - 1);
    }
  }

  // ---- one bit at a time

  lemma {:induction false} ZeroBit(i: nat)
    ensures !Bit(0, i)
    decreases i
  {
    if i != 0 {
      ZeroBit(i - 1);
    }
  }

  lemma {:induction false} OrBit(a: nat, b: nat, i: nat)
    ensures Bit(Or(a, b), i) == (Bit(a, i) || Bit(b, i))
    decreases i
  {
    if a == 0 && b == 0 {
      ZeroBit(i);
    } else if i != 0 {
      OrBit(a / 2, b / 2, i - 1);
    }
  }

  lemma {:induction false} AndBit(a: nat, b: nat, i: nat)
    ensures Bit(And(a, b), i) == (Bit(a, i) && Bit(b, i))
    decreases i
  {
    if a == 0 || b == 0 {
      ZeroBit(i);
    } else if i != 0 {
      AndBit(a / 2, b / 2, i - 1);
    }
  }

  lemma {:induction false} ShlBit(x: nat, n: nat, i: nat)
    ensures Bit(Shl(x, n), i) == (i >= n && Bit(x, i - n))
    decreases n
  {
    if n != 0 && i != 0 {
      ShlBit(x, n - 1, i - 1);
    }
  }

  lemma {:induction false} ShrBit(x: nat, n: nat, i: nat)
    ensures Bit(Shr(x, n), i) == Bit(x, i + n)
    decreases n
  {
    if n != 0 {
      ShrBit(x / 2, n - 1, i);
    }
  }

  lemma {:induction false} OnesBit(n: nat, i: nat)
    ensures Bit(Ones(n), i) == (i < n)
    decreases n
  {
    if n == 0 {
      ZeroBit(i);
    } else {
      assert Ones(n) == 2 * Ones(n - 1) + 1;
      if i != 0 {
        OnesBit(n - 1, i - 1);
      }
    }
  }

  lemma OrBits(a: nat, b: nat)
    ensures forall i: nat :: Bit(Or(a, b), i) == (Bit(a, i) || Bit(b, i))
  {
    forall i: nat { OrBit(a, b, i); }
  }

  lemma AndBits(a: nat, b: nat)
    ensures forall i: nat :: Bit(And(a, b), i) == (Bit(a, i) && Bit(b, i))
  {
    forall i: nat { AndBit(a, b, i); }
  }

  lemma ShlBits(x: nat, n: nat)
    ensures forall i: nat :: Bit(Shl(x, n), i) == (i >= n && Bit(x, i - n))
  {
    forall i: nat { ShlBit(x, n, i); }
  }

  lemma ShrBits(x: nat, n: nat)
    ensures forall i: nat :: Bit(Shr(x, n), i) == Bit(x, i + n)
  {
    forall i: nat { ShrBit(x, n, i); }
  }

  lemma OnesBits(n: nat)
    ensures forall i: nat :: Bit(Ones(n), i) == (i < n)
  {
    forall i: nat { OnesBit(n, i); }
  }

  lemma ZeroBits()
    ensures forall i: nat :: !Bit(0, i)
  {
    forall i: nat { ZeroBit(i); }
  }

  // ---- size and extensionality

  lemma {:induction false} HighBitsClear(x: nat, n: nat, i: nat)
    requires x < Pow2(n) && i >= n
    ensures !Bit(x, i)
    decreases i
  {
    if n == 0 {
      ZeroBit(i);
    } else {
      HighBitsClear(x / 2, n - 1, i - 1);
    }
  }

  lemma {:induction false} BoundFromBits(x: nat, n: nat)
    requires forall i: nat :: i >= n ==> !Bit(x, i)
    ensures x < Pow2(n)
    decreases x
  {
    if x != 0 {
      if n == 0 {
        var i := SomeBit(x);
        assert false;
      } else {
        forall i: nat | i >= n - 1 ensures !Bit(x / 2, i) {
          assert !Bit(x, i + 1);
        }
        BoundFromBits(x / 2, n - 1);
      }
    }
  }

  lemma {:induction false} SomeBit(x: nat) returns (i: nat)
    requires x != 0
    ensures Bit(x, i)
    decreases x
  {
    if x % 2 == 1 {
      i := 0;
    } else {
      var j := SomeBit(x / 2);
      i := j + 1;
    }
  }

  lemma {:induction false} SameBits(a: nat, b: nat)
    requires forall i: nat :: Bit(a, i) == Bit(b, i)
    ensures a == b
    decreases a + b
  {
    if a == 0 && b == 0 {
    } else {
      assert Bit(a, 0) == Bit(b, 0);
      forall i: nat ensures Bit(a / 2, i) == Bit(b / 2, i) {
        assert Bit(a, i + 1) == Bit(b, i + 1);
      }
      SameBits(a / 2, b / 2);
    }
  }

  /** Two bytes agreeing on their eight bits are equal. */
  lemma SameByte(a: byte, b: byte)
    requires forall i: nat :: i < 8 ==> Bit(a, i) == Bit(b, i)
    ensures a == b
  {
    Pow2Values();
    forall i: nat ensures Bit(a, i) == Bit(b, i) {
      if i >= 8 {
        HighBitsClear(a, 8, i);
        HighBitsClear(b, 8, i);
      }
    }
    SameBits(a, b);
  }

  /** OR-ing a value into clear low bits is addition. */
  lemma {:induction false} OrAdd(high: nat, k: nat, low: nat)
    requires low < Pow2(k)
    ensures Or(Shl(high, k), low) == Shl(high, k) + low
    decreases k
  {
    if k == 0 {
      OrZero(high);
    } else {
      OrAdd(high, k - 1, low / 2);
      assert Shl(high, k) / 2 == Shl(high, k - 1);
    }
  }

  lemma {:induction false} OrZero(a: nat)
    ensures Or(a, 0) == a && Or(0, a) == a
    decreases a
  {
    if a != 0 {
      OrZero(a / 2);
    }
  }

  lemma {:induction false} ShrDiv(x: nat, n: nat)
    ensures Shr(x, n) == x / Pow2(n)
    decreases n
  {
    if n != 0 {
      ShrDiv(x / 2, n - 1);
      DivDiv(x, Pow2(n - 1));
    }
  }

  lemma DivDiv(x: nat, p: nat)
    requires p >= 1
    ensures x / 2 / p == x / (2 * p)
    ensures x % (2 * p) == 2 * (x / 2 % p) + x % 2
  {
    var q, r := x / 2 / p, x / 2 % p;
    assert x / 2 == p * q + r;
    DivUnique(x, 2 * p, q, 2 * r + x % 2);
  }

  lemma DivUnique(x: nat, d: nat, q: nat, r: nat)
    requires d >= 1 && x == d * q + r && r < d
    ensures x / d == q && x % d == r
  {
    MulGap(d, q, x / d);
    MulGap(d, x / d, q);
  }

  lemma MulGap(d: nat, a: int, b: int)
    ensures a < b ==> d * a + d <= d * b
  {
    if a < b {
      var k: nat := b - a - 1;
      MulNonNegative(d, k);
      assert d * (a + 1 + k) == d * a + d + d * k;
    }
  }

  lemma {:induction false} MulNonNegative(d: nat, k: nat)
    ensures d * k >= 0
  {
    if k != 0 {
      MulNonNegative(d, k - 1);
      assert d * k == d * (k - 1) + d;
    }
  }

  /** Masking with `Ones(n)` takes the remainder modulo `2^n`. */
  lemma {:induction false} AndOnes(x: nat, n: nat)
    ensures And(x, Ones(n)) == x % Pow2(n)
    decreases n
  {
    if n == 0 {
      assert Ones(0) == 0;
    } else {
      assert Ones(n) == 2 * Ones(n - 1) + 1;
      AndOnes(x / 2, n - 1);
      DivDiv(x, Pow2(n - 1));
    }
  }

  // ---- big-endian bit sequences

  function Value(bits: seq<bool>): (v: nat)
  {
    if bits == [] then 0
    else 2 * Value(bits[..|bits| - 1]) + if bits[|bits| - 1] then 1 else 0
  }

  /** The `n` low bits of `v`, most significant first. */
  function BigEndian(v: nat, n: nat): (bits: seq<bool>)
    ensures |bits| == n
    ensures forall k: nat :: k < n ==> bits[k] == Bit(v, n - 1 - k)
  {
    seq(n, (k: nat) requires k < n => Bit(v, n - 1 - k))
  }

  lemma {:induction false} ValueBit(bits: seq<bool>, i: nat)
    ensures Bit(Value(bits), i) == (i < |bits| && bits[|bits| - 1 - i])
    decreases |bits|
  {
    if bits == [] {
      ZeroBit(i);
    } else if i != 0 {
      ValueBit(bits[..|bits| - 1], i - 1);
    }
  }

  lemma ValueBits(bits: seq<bool>)
    ensures forall i: nat :: Bit(Value(bits), i) == (i < |bits| && bits[|bits| - 1 - i])
  {
    forall i: nat { ValueBit(bits, i); }
  }

  lemma {:induction false} ValueBound(bits: seq<bool>)
    ensures Value(bits) < Pow2(|bits|)
    decreases |bits|
  {
    if bits != [] {
      ValueBound(bits[..|bits| - 1]);
    }
  }

  lemma ValueBigEndian(v: nat, n: nat)
    requires v < Pow2(n)
    ensures Value(BigEndian(v, n)) == v
  {
    ValueBits(BigEndian(v, n));
    forall i: nat ensures Bit(Value(BigEndian(v, n)), i) == Bit(v, i) {
      if i >= n {
        HighBitsClear(v, n, i);
      }
    }
    SameBits(Value(BigEndian(v, n)), v);
  }
}
