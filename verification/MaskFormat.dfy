/** The two mask payload formats, as functions from a mask to bytes. */
module MaskFormat {
  import opened Wrappers
  import opened Arithmetic
  import opened Bits
  import opened BinaryUtils
  import opened MaskRuns
  import opened MaskHeader

  const MAX_SIZE: nat := 0x1_0000_0000  // masks have fewer than 2^32 values

  // ---- bit streams and bytes

  function Pad(bits: seq<bool>, p: nat): bool {
    p < |bits| && bits[p]
  }

  function Octet(bits: seq<bool>, i: nat): (o: seq<bool>)
    ensures |o| == 8
  {
    seq(8, (k: nat) => Pad(bits, 8 * i + k))
  }

  function OctetReversed(bits: seq<bool>, i: nat): (o: seq<bool>)
    ensures |o| == 8
  {
    seq(8, (k: nat) requires k < 8 => Pad(bits, 8 * i + (7 - k)))
  }

  function ByteOf(bits: seq<bool>): byte
    requires |bits| == 8
  {
    ValueBound(bits);
    Pow2Values();
    Value(bits)
  }

  function BytesFor(n: nat): nat {
    (n + 7) / 8
  }

  /** Eight bits to a byte, most significant bit first, the last byte filled with zeros. */
  function Pack(bits: seq<bool>): (b: seq<byte>)
    ensures |b| == BytesFor(|bits|)
  {
    seq(BytesFor(|bits|), (i: nat) => ByteOf(Octet(bits, i)))
  }

  /** Eight bits to a byte, least significant bit first. */
  function PackLow(bits: seq<bool>): (b: seq<byte>)
    ensures |b| == BytesFor(|bits|)
  {
    seq(BytesFor(|bits|), (i: nat) => ByteOf(OctetReversed(bits, i)))
  }

  lemma ByteOfBit(bits: seq<bool>, i: nat, k: nat)
    requires k < 8
    ensures Bit(ByteOf(Octet(bits, i)), 7 - k) == Pad(bits, 8 * i + k)
    ensures Bit(ByteOf(OctetReversed(bits, i)), k) == Pad(bits, 8 * i + k)
  {
    ValueBit(Octet(bits, i), 7 - k);
    ValueBit(OctetReversed(bits, i), k);
  }

  /** Bit `p` of the payload that follows the header, most significant bit of each byte first.
      Bits past the end read as zero. */
  predicate PayloadBit(b: seq<byte>, p: nat) {
    HEADER_SIZE + p / 8 < |b| && Bit(b[HEADER_SIZE + p / 8], 7 - p % 8)
  }

  lemma PackedBit(header: seq<byte>, bits: seq<bool>, p: nat)
    requires |header| == HEADER_SIZE
    ensures PayloadBit(header + Pack(bits), p) == Pad(bits, p)
  {
    if p / 8 < BytesFor(|bits|) {
      ByteOfBit(bits, p / 8, p % 8);
      assert (header + Pack(bits))[HEADER_SIZE + p / 8] == Pack(bits)[p / 8];
    }
  }

  /** A byte sequence whose bits are those of `bits`, padded with zeros, is `Pack(bits)`. */
  lemma PackUnique(b: seq<byte>, bits: seq<bool>)
    requires |b| == BytesFor(|bits|)
    requires forall i: nat, m: nat :: i < |b| && m < 8 ==> Bit(b[i], m) == Pad(bits, 8 * i + (7 - m))
    ensures b == Pack(bits)
  {
    forall i: nat | i < |b| ensures b[i] == Pack(bits)[i] {
      forall m: nat | m < 8 ensures Bit(b[i], m) == Bit(Pack(bits)[i], m) {
        ByteOfBit(bits, i, 7 - m);
      }
      SameByte(b[i], Pack(bits)[i]);
    }
  }

  lemma PackLowUnique(b: seq<byte>, bits: seq<bool>)
    requires |b| == BytesFor(|bits|)
    requires forall i: nat, k: nat :: i < |b| && k < 8 ==> Bit(b[i], k) == Pad(bits, 8 * i + k)
    ensures b == PackLow(bits)
  {
    forall i: nat | i < |b| ensures b[i] == PackLow(bits)[i] {
      forall k: nat | k < 8 ensures Bit(b[i], k) == Bit(PackLow(bits)[i], k) {
        ByteOfBit(bits, i, k);
      }
      SameByte(b[i], PackLow(bits)[i]);
    }
  }

  // ---- the run-length bit stream

  /** Every run length, less one, as a big-endian field of `w` bits. */
  function Stream(runs: seq<nat>, w: nat): seq<bool>
    requires Positive(runs)
  {
    if runs == [] then []
    else Stream(runs[..|runs| - 1], w) + BigEndian(runs[|runs| - 1] - 1, w)
  }

  lemma StreamUnfold(init: seq<nat>, r: nat, w: nat)
    requires Positive(init) && r >= 1
    ensures Positive(init + [r])
    ensures Stream(init + [r], w) == Stream(init, w) + BigEndian(r - 1, w)
  {
    assert (init + [r])[..|init|] == init;
  }

  lemma {:induction false} StreamLength(runs: seq<nat>, w: nat)
    requires Positive(runs)
    ensures |Stream(runs, w)| == Times(|runs|, w)
    decreases |runs|
  {
    if runs != [] {
      StreamLength(runs[..|runs| - 1], w);
      assert |runs| * w == (|runs| - 1) * w + w;
    }
  }

  /** Field `j` of the stream holds run `j`. */
  lemma {:induction false} StreamField(runs: seq<nat>, w: nat, j: nat, k: nat)
    requires Positive(runs) && j < |runs| && k < w
    ensures Times(j, w) + k < |Stream(runs, w)|
    ensures Stream(runs, w)[Times(j, w) + k] == Bit(runs[j] - 1, w - 1 - k)
    decreases |runs|
  {
    var n := |runs| - 1;
    StreamLength(runs[..n], w);
    if j < n {
      StreamField(runs[..n], w, j, k);
    }
  }

  // ---- the two formats

  function Width(mask: seq<bool>): (w: nat)
    requires 1 <= |mask| < MAX_SIZE
  {
    RunsSum(mask);
    LongestAtMostSum(Runs(mask));
    var m := Longest(Runs(mask));
    BitWidth(if m > 1 then m - 1 else 1)
  }

  /** Every run fits the width, which is the least possible and at most 32; it reaches 32 exactly
      when some run is longer than `2^31`. */
  lemma WidthFits(mask: seq<bool>)
    requires 1 <= |mask| < MAX_SIZE
    ensures 1 <= Width(mask) <= 32
    ensures Longest(Runs(mask)) <= Pow2(Width(mask))
    ensures Width(mask) == 32 <==> Longest(Runs(mask)) > 0x8000_0000
  {
    RunsSum(mask);
    LongestAtMostSum(Runs(mask));
    var m := Longest(Runs(mask));
    var v := if m > 1 then m - 1 else 1;
    BitWidthBounds(v);
    WidthLimit(v, Width(mask));
  }

  lemma WidthLimit(v: nat, w: nat)
    requires w >= 1 && Pow2(w - 1) <= v < Pow2(w) && v < MAX_SIZE
    ensures w <= 32
    ensures w == 32 <==> v >= 0x8000_0000
  {
    Pow2Values();
    if w > 32 {
      Pow2Mono(32, w - 1);
    } else if w < 32 {
      Pow2Mono(w, 31);
    }
  }

  function RunLengthHeader(mask: seq<bool>): Header
    requires 1 <= |mask| < MAX_SIZE
  {
    Header(RunLength, |mask|, Width(mask), mask[0])
  }

  function BitMaskHeader(mask: seq<bool>): Header {
    Header(BitMask, |mask|, 0, false)
  }

  function HeaderBytes(h: Header): (b: seq<byte>)
    requires Representable(h)
    ensures |b| == HEADER_SIZE
  {
    HeaderRoundTrip(h);
    EncodeHeader(h).value
  }

  lemma HeaderBytesDecode(h: Header, rest: seq<byte>)
    requires Representable(h)
    ensures DecodeHeader(HeaderBytes(h) + rest) == Ok(h)
  {
    HeaderRoundTrip(h);
    DecodePrefix(HeaderBytes(h), rest);
  }

  function EncodedRunLength(mask: seq<bool>): seq<byte>
    requires 1 <= |mask| < MAX_SIZE
  {
    WidthFits(mask);
    RunsPositive(mask);
    HeaderBytes(RunLengthHeader(mask)) + Pack(Stream(Runs(mask), Width(mask)))
  }

  function EncodedBitMask(mask: seq<bool>): (b: seq<byte>)
    requires |mask| < MAX_SIZE
    ensures |b| == HEADER_SIZE + BytesFor(|mask|)
  {
    HeaderBytes(BitMaskHeader(mask)) + PackLow(mask)
  }

  lemma RunLengthSize(mask: seq<bool>)
    requires 1 <= |mask| < MAX_SIZE
    ensures |EncodedRunLength(mask)| == HEADER_SIZE + BytesFor(Times(|Runs(mask)|, Width(mask)))
  {
    RunsPositive(mask);
    var runs, w := Runs(mask), Width(mask);
    StreamLength(runs, w);
    WidthFits(mask);
  }

  /** The shorter of the two formats, run length on a tie. */
  function EncodedMask(mask: seq<bool>): seq<byte>
    requires 1 <= |mask| < MAX_SIZE
  {
    if |EncodedBitMask(mask)| < |EncodedRunLength(mask)| then EncodedBitMask(mask)
    else EncodedRunLength(mask)
  }
}
