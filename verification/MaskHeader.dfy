/** The 5-byte header shared by both mask payload formats. */
module MaskHeader {
  import opened Wrappers
  import opened Bits

  const HEADER_SIZE: nat := 5
  const MAX_BITS_PER_INT: nat := 64

  datatype Format = BitMask | RunLength

  datatype Header = Header(format: Format, numBits: nat, numBitsPerInt: nat, startValue: bool)

  function Code(f: Format): nat {
    if f.RunLength? then 1 else 0
  }

  function FirstByte(h: Header): byte
    requires h.format.RunLength? ==> h.numBitsPerInt <= MAX_BITS_PER_INT
  {
    var b := ToByte(Shl(Code(h.format), 7));
    if h.format.BitMask? then b
    else
      var b' := ToByte(Or(b, Shl(if h.startValue then 1 else 0, 6)));
      ToByte(Or(b', And(Wrap(h.numBitsPerInt - 1), 0xFF)))
  }

  function SizeByte(numBits: nat, shift: nat): byte {
    ToByte(And(Shr(numBits, shift), 0xFF))
  }

  function EncodeHeader(h: Header): Result<seq<byte>> {
    if h.format.RunLength? && h.numBitsPerInt > MAX_BITS_PER_INT then Failed
    else if h.numBits > 0xFFFF_FFFF then Failed
    else
      Ok([FirstByte(h), SizeByte(h.numBits, 24), SizeByte(h.numBits, 16),
          SizeByte(h.numBits, 8), SizeByte(h.numBits, 0)])
  }

  function JoinSize(b1: byte, b2: byte, b3: byte, b4: byte): nat {
    Or(Or(Or(Shl(b1, 24), Shl(b2, 16)), Shl(b3, 8)), b4)
  }

  function DecodeHeader(b: seq<byte>): Result<Header> {
    if |b| < HEADER_SIZE then Failed
    else
      var format := if Shr(b[0], 7) == 1 then RunLength else BitMask;
      var numBits := JoinSize(b[1], b[2], b[3], b[4]);
      if format.RunLength? then
        Ok(Header(RunLength, numBits, And(b[0], Ones(6)) + 1, And(Shr(b[0], 6), 1) == 1))
      else
        Ok(Header(BitMask, numBits, 0, false))
  }

  // ---- what the header bytes are, arithmetically

  lemma ByteMask(x: nat)
    ensures And(x, 0xFF) == x % 256
  {
    Pow2Values();
    ShlPow(1, 8);
    AndOnes(x, 8);
  }

  lemma SizeByteDigit(n: nat, shift: nat)
    ensures SizeByte(n, shift) == n / Pow2(shift) % 256
  {
    ShrDiv(n, shift);
    ByteMask(Shr(n, shift));
  }

  /** The four size bytes are the base-256 digits of the size, most significant first. */
  lemma SizeBytes(n: nat)
    requires n <= 0xFFFF_FFFF
    ensures SizeByte(n, 24) == n / 0x100_0000 && SizeByte(n, 16) == n / 0x1_0000 % 256
    ensures SizeByte(n, 8) == n / 256 % 256 && SizeByte(n, 0) == n % 256
  {
    assert Pow2(0) == 1;
    hide And, Shr, Pow2, SizeByte;
    Pow2Values();
    SizeByteDigit(n, 24);
    SizeByteDigit(n, 16);
    SizeByteDigit(n, 8);
    SizeByteDigit(n, 0);
  }

  lemma JoinBytes(b1: byte, b2: byte, b3: byte, b4: byte)
    ensures JoinSize(b1, b2, b3, b4) == b1 * 0x100_0000 + b2 * 0x1_0000 + b3 * 256 + b4
  {
    hide Or, Shl, Pow2;
    Pow2Values();
    ShlPow(b1, 24); ShlPow(b2, 16); ShlPow(b3, 8);
    OrAdd(b1, 24, Shl(b2, 16));
    var x := b1 * 256 + b2;
    ShlPow(x, 16);
    OrAdd(x, 16, Shl(b3, 8));
    var y := x * 256 + b3;
    ShlPow(y, 8);
    OrAdd(y, 8, b4);
  }

  lemma WidthBits(w: nat)
    requires w <= MAX_BITS_PER_INT
    ensures And(Wrap(w - 1), 0xFF) == if w == 0 then 255 else w - 1
  {
    ByteMask(Wrap(w - 1));
  }

  lemma FormatAndStart(s: nat)
    requires s <= 1
    ensures Shl(1, 7) == 128 && Or(128, Shl(s, 6)) == 128 + 64 * s
  {
    hide Or, Shl, Pow2;
    Pow2Values();
    ShlPow(1, 7);
    ShlPow(s, 6);
    OrAdd(1, 7, 64 * s);
  }

  lemma FirstByteRunLength(h: Header)
    requires h.format.RunLength? && h.numBitsPerInt <= MAX_BITS_PER_INT
    ensures FirstByte(h) ==
            if h.numBitsPerInt == 0 then 255
            else 128 + (if h.startValue then 64 else 0) + (h.numBitsPerInt - 1)
  {
    hide Or, And, Shl, Pow2;
    var s: nat := if h.startValue then 1 else 0;
    FormatAndStart(s);
    WidthBits(h.numBitsPerInt);
    if h.numBitsPerInt == 0 {
      OrTo255(128 + 64 * s);
    } else {
      Pow2Values();
      ShlPow(2 + s, 6);
      OrAdd(2 + s, 6, h.numBitsPerInt - 1);
    }
  }

  lemma OrTo255(b: byte)
    ensures Or(b, 255) == 255
  {
    hide Or, Pow2;
    Pow2Values();
    ShlPow(1, 8);
    OnesBits(8);
    OrBits(b, 255);
    forall i: nat ensures Bit(Or(b, 255), i) == Bit(255, i) {
      if i >= 8 { HighBitsClear(b, 8, i); }
    }
    SameBits(Or(b, 255), 255);
  }

  lemma HighBits(b: nat)
    ensures Shr(b, 7) == b / 128 && Shr(b, 6) == b / 64
  {
    hide Shr, Pow2;
    Pow2Values();
    ShrDiv(b, 7);
    ShrDiv(b, 6);
  }

  lemma LowBits(b: nat)
    ensures And(b, Ones(6)) == b % 64 && And(b, 1) == b % 2
  {
    assert Ones(1) == 1 && Pow2(1) == 2;
    hide And, Pow2, Shl;
    Pow2Values();
    AndOnes(b, 6);
    AndOnes(b, 1);
  }

  /** A first byte with the top bit set splits into start value and width. */
  lemma DecodeFirstByte(s: nat, w: nat)
    requires s <= 1 && w < 64
    ensures var b := 128 + 64 * s + w;
            Shr(b, 7) == 1 && And(b, Ones(6)) == w && And(Shr(b, 6), 1) == s
  {
    hide Shr, And, Shl;
    HighBits(128 + 64 * s + w);
    LowBits(128 + 64 * s + w);
    LowBits(2 + s);
  }

  /** Headers that survive encoding: a run-length header needs a width of 1 to 64, and a
      bit-mask header carries no run-length information. */
  predicate Representable(h: Header) {
    && h.numBits <= 0xFFFF_FFFF
    && (h.format.RunLength? ==> 1 <= h.numBitsPerInt <= MAX_BITS_PER_INT)
    && (h.format.BitMask? ==> h.numBitsPerInt == 0 && !h.startValue)
  }

  lemma Base256(n: nat)
    ensures n / 0x100_0000 * 0x100_0000 + n / 0x1_0000 % 256 * 0x1_0000 + n / 256 % 256 * 256 + n % 256 == n
  {
  }

  lemma JoinSplit(n: nat)
    requires n <= 0xFFFF_FFFF
    ensures JoinSize(SizeByte(n, 24), SizeByte(n, 16), SizeByte(n, 8), SizeByte(n, 0)) == n
  {
    SizeBytes(n);
    JoinBytes(SizeByte(n, 24), SizeByte(n, 16), SizeByte(n, 8), SizeByte(n, 0));
    Base256(n);
  }

  lemma DecodeEncoded(h: Header)
    requires EncodeHeader(h).Ok?
    ensures DecodeHeader(EncodeHeader(h).value) == Ok(
              if h.format.BitMask? then Header(BitMask, h.numBits, 0, false)
              else if h.numBitsPerInt == 0 then Header(RunLength, h.numBits, 64, true)
              else h)
  {
    hide Or, And, Shl, Shr, Pow2, JoinSize, SizeByte;
    JoinSplit(h.numBits);
    if h.format.RunLength? {
      FirstByteRunLength(h);
      if h.numBitsPerInt == 0 {
        DecodeFirstByte(1, 63);
      } else {
        DecodeFirstByte(if h.startValue then 1 else 0, h.numBitsPerInt - 1);
      }
    } else {
      ShlPow(0, 7);
      ShrDiv(0, 7);
    }
  }

  /** The bytes of an encoded header, as numbers: the first holds format, start value and width less
      one, and is zero for a bit mask; then comes the size, most significant byte first. */
  lemma HeaderBytesAre(h: Header)
    requires Representable(h)
    ensures EncodeHeader(h) ==
            Ok([if h.format.BitMask? then 0 else 128 + (if h.startValue then 64 else 0) + h.numBitsPerInt - 1,
                h.numBits / 0x100_0000, h.numBits / 0x1_0000 % 256, h.numBits / 256 % 256, h.numBits % 256])
  {
    hide SizeByte, Shl, Or, And;
    SizeBytes(h.numBits);
    if h.format.RunLength? {
      FirstByteRunLength(h);
    } else {
      ShlPow(0, 7);
    }
  }

  /** What any five bytes, and whatever follows them, are read as. */
  lemma DecodedHeaderIs(b: seq<byte>)
    requires |b| >= HEADER_SIZE
    ensures var numBits := b[1] as nat * 0x100_0000 + b[2] as nat * 0x1_0000 + b[3] as nat * 256 + b[4] as nat;
            DecodeHeader(b) == Ok(if b[0] < 128 then Header(BitMask, numBits, 0, false)
                                  else Header(RunLength, numBits, b[0] % 64 + 1, b[0] / 64 % 2 == 1))
  {
    hide Shr, And, JoinSize;
    JoinBytes(b[1], b[2], b[3], b[4]);
    HighBits(b[0]);
    LowBits(b[0]);
    LowBits(b[0] / 64);
  }

  /** Encoding succeeds exactly on sizes of at most 32 bits and widths of at most 64, and decoding
      what was encoded gives the header back exactly when it is representable. */
  lemma HeaderRoundTrip(h: Header)
    ensures EncodeHeader(h).Ok? <==>
            h.numBits <= 0xFFFF_FFFF && (h.format.RunLength? ==> h.numBitsPerInt <= MAX_BITS_PER_INT)
    ensures EncodeHeader(h).Ok? ==> |EncodeHeader(h).value| == HEADER_SIZE
    ensures EncodeHeader(h).Ok? ==>
              (DecodeHeader(EncodeHeader(h).value) == Ok(h) <==> Representable(h))
  {
    if EncodeHeader(h).Ok? {
      DecodeEncoded(h);
    }
  }

  /** Bytes appended after the header do not change what is decoded. */
  lemma DecodePrefix(b: seq<byte>, rest: seq<byte>)
    requires |b| == HEADER_SIZE
    ensures DecodeHeader(b + rest) == DecodeHeader(b)
  {
  }
}
