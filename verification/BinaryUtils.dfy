/** `nextPowOf2` and `bitWidth` for 64-bit words, as computed by smearing the top bit
    down and then halving the word. */
module BinaryUtils {
  import opened Bits

  type word = x: nat | x < WORD

  const WORD_BITS: nat := 64  // sizeof(IntType) * CHAR_BIT

  // ---- the source's algorithm

  /** `nextPowOf2(v, d)` without its final increment. */
  function Smear(v: nat, d: nat): nat
    requires d >= 1
    decreases 64 - d, v
  {
    if d >= 64 then v else Smear(Or(v, Shr(v, d)), 2 * d)
  }

  function NextPowOf2(v: word): word {
    Wrap(Smear(Wrap(v - 1), 1) + 1)
  }

  /** The three-argument `bitWidth`: finds the set bit of `v` by splitting the word in half. */
  function HalvingWidth(v: nat, s: nat, w: nat): nat
    requires w >= 1
    decreases w, v
  {
    if w == 1 then s
    else
      var shift := Half(w);
      var high := And(v, Shl(Ones(shift), shift));
      var low := And(v, Ones(shift));
      if high != 0 then HalvingWidth(Shr(high, shift), s + shift, shift)
      else HalvingWidth(low, s, shift)
  }

  function Half(w: nat): (h: nat)
    requires w >= 2
    ensures 1 <= h < w
  {
    w / 2
  }

  function BitWidth(v: word): nat {
    if v == 0x8000_0000_0000_0000 then 63
    else if v > 0x8000_0000_0000_0000 then 64
    else
      var np2 := NextPowOf2(v);
      HalvingWidth(if v == np2 then Wrap(Shl(np2, 1)) else np2, 0, WORD_BITS)
  }

  // ---- what it is meant to compute

  /** The number of binary digits of `v`. */
  function Digits(v: nat): nat {
    if v == 0 then 0 else 1 + Digits(v / 2)
  }

  lemma {:induction false} DigitsBounds(v: nat)
    ensures v < Pow2(Digits(v))
    ensures v > 0 ==> Pow2(Digits(v) - 1) <= v
    decreases v
  {
    if v > 1 {
      DigitsBounds(v / 2);
    }
  }

  lemma DigitsUnique(v: nat, n: nat)
    requires n >= 1 && Pow2(n - 1) <= v < Pow2(n)
    ensures Digits(v) == n
  {
    DigitsBounds(v);
    if Digits(v) < n {
      Pow2Mono(Digits(v), n - 1);
    } else if Digits(v) > n {
      Pow2Mono(n, Digits(v) - 1);
    }
  }

  lemma {:induction false} TopBit(v: nat)
    requires v > 0
    ensures Bit(v, Digits(v) - 1)
    decreases v
  {
    if v > 1 {
      TopBit(v / 2);
    }
  }

  lemma Pow2Bits(k: nat)
    ensures forall i: nat :: Bit(Pow2(k), i) == (i == k)
  {
    ShlPow(1, k);
    ShlBits(1, k);
    forall i: nat ensures Bit(1, i) == (i == 0) {
      if i > 0 { ZeroBit(i - 1); }
    }
  }

  /** Smearing a value whose bits `h`, ..., `h - d + 1` are set fills every bit below `h`. */
  lemma {:induction false} SmearFills(v: nat, h: nat, d: nat)
    requires d >= 1 && h < 64
    requires forall i: nat :: i > h ==> !Bit(v, i)
    requires forall i: nat :: h - d < i <= h ==> Bit(v, i)
    ensures Smear(v, d) == Ones(h + 1)
    decreases 64 - d
  {
    if d >= 64 {
      OnesBits(h + 1);
      SameBits(v, Ones(h + 1));
    } else {
      var u := Or(v, Shr(v, d));
      OrBits(v, Shr(v, d));
      ShrBits(v, d);
      SmearFills(u, h, 2 * d);
    }
  }

  lemma {:induction false} SmearZero(d: nat)
    requires d >= 1
    ensures Smear(0, d) == 0
    decreases 64 - d
  {
    if d < 64 {
      ShrDiv(0, d);
      SmearZero(2 * d);
    }
  }

  lemma SmearOnes(n: nat)
    requires 1 <= n <= 64
    ensures Smear(Pow2(n) - 1, 1) == Pow2(n) - 1
  {
    ShlPow(1, n);
    OnesBits(n);
    SmearFills(Ones(n), n - 1, 1);
  }

  lemma SmearToPow(u: nat)
    requires u > 0 && Digits(u) <= 64
    ensures Smear(u, 1) + 1 == Pow2(Digits(u))
  {
    var h := Digits(u) - 1;
    DigitsBounds(u);
    TopBit(u);
    forall i: nat | i > h ensures !Bit(u, i) { HighBitsClear(u, h + 1, i); }
    SmearFills(u, h, 1);
    ShlPow(1, h + 1);
  }

  /** A value below `2^63` has at most 63 digits. */
  lemma DigitsAtMost63(v: nat)
    ensures v < 0x8000_0000_0000_0000 <==> Digits(v) <= 63
  {
    DigitsBounds(v);
    Pow2Values();
    if Digits(v) <= 63 {
      Pow2Mono(Digits(v), 63);
    } else {
      Pow2Mono(63, Digits(v) - 1);
    }
  }

  lemma NextPowOf2IsNext(v: word)
    requires 1 <= v < 0x8000_0000_0000_0000
    ensures NextPowOf2(v) == Pow2(Digits(v - 1))
    ensures v <= NextPowOf2(v) < 2 * v
  {
    var u: nat := v - 1;
    DigitsBounds(u);
    DigitsAtMost63(u);
    assert Smear(u, 1) + 1 == Pow2(Digits(u)) by {
      if u == 0 {
        SmearZero(1);
      } else {
        SmearToPow(u);
      }
    }
  }

  lemma SplitHigh(k: nat, shift: nat)
    requires shift <= k < 2 * shift
    ensures And(Pow2(k), Shl(Ones(shift), shift)) == Pow2(k)
    ensures Shr(Pow2(k), shift) == Pow2(k - shift)
  {
    var mask := Shl(Ones(shift), shift);
    Pow2Bits(k);
    OnesBits(shift);
    ShlBits(Ones(shift), shift);
    AndBits(Pow2(k), mask);
    SameBits(And(Pow2(k), mask), Pow2(k));
    ShrBits(Pow2(k), shift);
    Pow2Bits(k - shift);
    SameBits(Shr(Pow2(k), shift), Pow2(k - shift));
  }

  lemma SplitLow(k: nat, shift: nat)
    requires k < shift
    ensures And(Pow2(k), Shl(Ones(shift), shift)) == 0
    ensures And(Pow2(k), Ones(shift)) == Pow2(k)
  {
    var mask := Shl(Ones(shift), shift);
    Pow2Bits(k);
    OnesBits(shift);
    ShlBits(Ones(shift), shift);
    AndBits(Pow2(k), mask);
    ZeroBits();
    SameBits(And(Pow2(k), mask), 0);
    AndBits(Pow2(k), Ones(shift));
    SameBits(And(Pow2(k), Ones(shift)), Pow2(k));
  }

  lemma {:induction false} HalvingFinds(k: nat, s: nat, e: nat)
    requires k < Pow2(e)
    ensures HalvingWidth(Pow2(k), s, Pow2(e)) == s + k
    decreases e
  {
    if e != 0 {
      var shift := Pow2(e - 1);
      if k >= shift {
        SplitHigh(k, shift);
        HalvingFinds(k - shift, s + shift, e - 1);
      } else {
        SplitLow(k, shift);
        HalvingFinds(k, s, e - 1);
      }
    }
  }

  lemma {:induction false} HalvingZero(s: nat, w: nat)
    requires w >= 1
    ensures HalvingWidth(0, s, w) == s
    decreases w
  {
    if w != 1 {
      HalvingZero(s, Half(w));
    }
  }

  lemma HalvingWord(k: nat)
    requires k < WORD_BITS
    ensures HalvingWidth(Pow2(k), 0, WORD_BITS) == k
  {
    assert Pow2(6) == WORD_BITS by { Pow2Values(); }
    HalvingFinds(k, 0, 6);
  }

  lemma BitWidthOfPower(v: word, k: nat)
    requires 1 <= v < 0x8000_0000_0000_0000
    requires NextPowOf2(v) == Pow2(k) && v <= Pow2(k) && k < 63
    ensures BitWidth(v) == if v == Pow2(k) then k + 1 else k
  {
    assert Shl(v, 1) == 2 * v && Pow2(k + 1) == 2 * Pow2(k);
    hide Shl, Pow2, Smear, NextPowOf2, HalvingWidth;
    if v == Pow2(k) {
      HalvingWord(k + 1);
    } else {
      HalvingWord(k);
    }
  }

  lemma BitWidthBelow(v: word)
    requires 1 <= v < 0x8000_0000_0000_0000
    ensures BitWidth(v) == Digits(v)
  {
    var k := Digits(v - 1);
    assert Pow2(k + 1) == 2 * Pow2(k);
    hide Pow2, Smear, NextPowOf2, Shl, HalvingWidth;
    NextPowOf2IsNext(v);
    DigitsBounds(v - 1);
    DigitsAtMost63(v);
    DigitsUnique(v, if v == Pow2(k) then k + 1 else k);
    if k == 63 {
      HalvingWord(k);
    } else {
      BitWidthOfPower(v, k);
    }
  }

  lemma NextPowOf2Zero(v: word)
    requires v == 0
    ensures NextPowOf2(v) == 0
  {
    var u := Wrap(v - 1);
    assert u == WORD - 1;
    assert Smear(u, 1) == u by {
      Pow2Values();
      SmearOnes(64);
    }
  }

  lemma BitWidthZero(v: word)
    requires v == 0
    ensures BitWidth(v) == 0
  {
    NextPowOf2Zero(v);
    HalvingZero(0, WORD_BITS);
  }

  /** `bitWidth` is the number of binary digits of every word except `2^63`. */
  lemma BitWidthIsDigits(v: word)
    ensures BitWidth(v) == Digits(v) <==> v != 0x8000_0000_0000_0000
  {
    if v >= 0x8000_0000_0000_0000 {
      Pow2Values();
      DigitsUnique(v, 64);
    } else if v == 0 {
      BitWidthZero(v);
    } else {
      BitWidthBelow(v);
    }
  }

  /** The width used for run lengths: the least `w` with `v < 2^w`. */
  lemma BitWidthBounds(v: word)
    requires 1 <= v < 0x8000_0000_0000_0000
    ensures BitWidth(v) >= 1
    ensures Pow2(BitWidth(v) - 1) <= v < Pow2(BitWidth(v))
  {
    BitWidthIsDigits(v);
    DigitsBounds(v);
  }
}
