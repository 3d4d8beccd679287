/** The mask encoders: a sizing pass and two bit-packing loops over a byte buffer. */
module MaskEncode {
  import opened Arithmetic
  import opened Bits
  import opened BinaryUtils
  import opened MaskRuns
  import opened MaskHeader
  import opened MaskFormat

  datatype Properties = Properties(bufSize: nat, numValues: nat, numBitsPerInt: nat, startValue: bool)

  /** `size / 8` rounded up, as the source writes it. */
  function RoundUp(bits: nat): (n: nat)
    ensures n == BytesFor(bits)
  {
    ShrDiv(bits, 3);
    AndOnes(bits, 3);
    Pow2Values();
    Shr(bits, 3) + if And(bits, Ones(3)) == 0 then 0 else 1
  }

  function ComputeBufferSizeMaskBitMask(size: nat): (n: nat)
    ensures n == HEADER_SIZE + BytesFor(size)
  {
    HEADER_SIZE + RoundUp(size)
  }

  ghost predicate AreProperties(p: Properties, mask: seq<bool>)
    requires 1 <= |mask| < MAX_SIZE
  {
    && p.numValues == |Runs(mask)|
    && p.numBitsPerInt == Width(mask)
    && p.startValue == mask[0]
    && p.bufSize == |EncodedRunLength(mask)|
  }

  /** After `i` values the runs `closed` are complete and a run of `counter` values is open. */
  ghost predicate SizedUpTo(mask: seq<bool>, i: nat, closed: seq<nat>, counter: nat, sign: bool, numValues: nat, maxNum: nat) {
    && 1 <= i <= |mask|
    && Runs(mask[..i]) == closed + [counter]
    && sign == mask[i - 1]
    && numValues == |closed| && maxNum == Longest(closed)
  }

  lemma SizedStart(mask: seq<bool>)
    requires mask != []
    ensures SizedUpTo(mask, 1, [], 1, mask[0], 0, 0)
  {
    assert mask[..1] == [mask[0]];
  }

  lemma SizedStep(mask: seq<bool>, i: nat, closed: seq<nat>, counter: nat, sign: bool, numValues: nat, maxNum: nat)
    requires SizedUpTo(mask, i, closed, counter, sign, numValues, maxNum) && i < |mask|
    ensures if mask[i] == sign then SizedUpTo(mask, i + 1, closed, counter + 1, sign, numValues, maxNum)
            else SizedUpTo(mask, i + 1, closed + [counter], 1, mask[i], numValues + 1, Max(maxNum, counter))
  {
    assert mask[..i + 1] == mask[..i] + [mask[i]];
    RunsSnoc(mask[..i], mask[i]);
    GrowSnoc(closed, counter);
    LongestSnoc(closed, counter);
  }

  lemma SizedEnd(mask: seq<bool>, closed: seq<nat>, counter: nat, sign: bool, numValues: nat, maxNum: nat)
    requires 1 <= |mask| < MAX_SIZE
    requires SizedUpTo(mask, |mask|, closed, counter, sign, numValues, maxNum)
    ensures Max(maxNum, counter) <= |mask|
    ensures AreProperties(MakeProperties(numValues + 1, Max(maxNum, counter), mask[0]), mask)
  {
    assert mask[..|mask|] == mask;
    LongestSnoc(closed, counter);
    RunsSum(mask);
    LongestAtMostSum(Runs(mask));
    RunLengthSize(mask);
    TimesCommutes(Width(mask), numValues + 1);
  }

  /** One pass over the mask finds the number of runs, their width and the exact buffer size. */
  method ComputeMaskRunLengthProperties(maskVals: seq<bool>) returns (p: Properties)
    requires |maskVals| < MAX_SIZE
    ensures maskVals == [] ==> p == Properties(0, 0, 0, false)
    ensures maskVals != [] ==> AreProperties(p, maskVals)
  {
    if |maskVals| == 0 {
      return Properties(0, 0, 0, false);
    }
    var startValue := maskVals[0];
    var numValues, maxNum, counter, currentSign := 0, 0, 1, startValue;
    ghost var closed: seq<nat> := [];
    SizedStart(maskVals);
    var i := 1;
    while i < |maskVals|
      invariant SizedUpTo(maskVals, i, closed, counter, currentSign, numValues, maxNum)
    {
      var v := maskVals[i];
      SizedStep(maskVals, i, closed, counter, currentSign, numValues, maxNum);
      if v == currentSign {
        counter := counter + 1;
      } else {
        closed := closed + [counter];
        numValues := numValues + 1;
        maxNum := Max(maxNum, counter);
        currentSign := v;
        counter := 1;
      }
      i := i + 1;
    }
    SizedEnd(maskVals, closed, counter, currentSign, numValues, maxNum);
    numValues := numValues + 1;
    maxNum := Max(maxNum, counter);
    p := MakeProperties(numValues, maxNum, startValue);
  }

  function MakeProperties(numValues: nat, maxNum: nat, startValue: bool): Properties
    requires maxNum < MAX_SIZE
  {
    var numBitsPerInt := BitWidth(if maxNum > 1 then maxNum - 1 else 1);
    Properties(RoundUp(Times(numBitsPerInt, numValues)) + HEADER_SIZE, numValues, numBitsPerInt, startValue)
  }

  lemma LongestSnoc(runs: seq<nat>, r: nat)
    ensures Longest(runs + [r]) == Max(Longest(runs), r)
  {
    assert (runs + [r])[..|runs|] == runs;
  }

  lemma TimesCommutes(a: nat, b: nat)
    ensures Times(a, b) == Times(b, a)
  {
  }

  /** An uninitialised buffer into whose first bytes the header is copied. */
  method NewBuffer(size: nat, header: seq<byte>) returns (buf: array<byte>)
    requires |header| <= size
    ensures fresh(buf) && buf.Length == size && buf[..|header|] == header
  {
    buf := new byte[size];
    forall i | 0 <= i < |header| { buf[i] := header[i]; }
  }

  // ---- bit-mask format

  /** The bytes after the header hold `bits`, least significant bit first, padded with zeros. */
  ghost predicate HoldsLow(b: seq<byte>, bits: seq<bool>) {
    && HEADER_SIZE + BytesFor(|bits|) <= |b|
    && forall o: nat, k: nat :: HEADER_SIZE <= o < HEADER_SIZE + BytesFor(|bits|) && k < 8 ==>
         Bit(b[o], k) == Pad(bits, 8 * (o - HEADER_SIZE) + k)
  }

  lemma HoldsLowEmpty()
    ensures forall b: seq<byte> :: |b| >= HEADER_SIZE ==> HoldsLow(b, [])
  {
  }

  /** What the loop of `encodeMaskBitMask` does to the byte holding value number `i`. */
  function PutLow(old_: byte, i: nat, v: bool): byte {
    var b := if i % 8 == 0 then 0 else old_;
    if v then ToByte(Or(b, Shl(1, i % 8))) else b
  }

  lemma PutLowHolds(b: seq<byte>, bits: seq<bool>, v: bool)
    requires HoldsLow(b, bits) && HEADER_SIZE + BytesFor(|bits| + 1) <= |b|
    ensures var o := HEADER_SIZE + |bits| / 8;
            HoldsLow(b[o := PutLow(b[o], |bits|, v)], bits + [v])
  {
    var i := |bits|;
    var o := HEADER_SIZE + i / 8;
    var init: byte := if i % 8 == 0 then 0 else b[o];
    ZeroBits();
    assert forall k: nat :: k < 8 ==> Bit(init, k) == Pad(bits, 8 * (i / 8) + k);
    SetBit(init, i % 8);
  }

  method EncodeMaskBitMask(maskVals: seq<bool>) returns (b: seq<byte>)
    requires |maskVals| < MAX_SIZE
    ensures b == EncodedBitMask(maskVals)
  {
    HoldsLowEmpty();
    hide HoldsLow, PutLow, EncodedBitMask, HeaderBytes;
    var encodedHeader := HeaderBytes(BitMaskHeader(maskVals));
    var buf := NewBuffer(ComputeBufferSizeMaskBitMask(|maskVals|), encodedHeader);
    var i := 0;
    while i < |maskVals|
      invariant 0 <= i <= |maskVals|
      invariant buf[..HEADER_SIZE] == encodedHeader
      invariant HoldsLow(buf[..], maskVals[..i])
    {
      ghost var before := buf[..];
      PutLowHolds(before, maskVals[..i], maskVals[i]);
      PutValue(buf, i, maskVals[i]);
      assert buf[..HEADER_SIZE] == before[..HEADER_SIZE];
      assert maskVals[..i + 1] == maskVals[..i] + [maskVals[i]];
      i := i + 1;
    }
    b := buf[..];
    assert maskVals[..i] == maskVals;
    HoldsLowIsPack(b, maskVals);
    BitMaskBytes(maskVals);
  }

  lemma BitMaskBytes(mask: seq<bool>)
    requires |mask| < MAX_SIZE
    ensures EncodedBitMask(mask) == HeaderBytes(BitMaskHeader(mask)) + PackLow(mask)
  {
  }

  /** The loop body: initialise a new byte, then set the value's bit. */
  method PutValue(buf: array<byte>, i: nat, v: bool)
    requires HEADER_SIZE + i / 8 < buf.Length
    modifies buf
    ensures var o := HEADER_SIZE + i / 8; buf[..] == old(buf[..][o := PutLow(buf[o], i, v)])
  {
    var offset := HEADER_SIZE + i / 8;
    var r8 := i % 8;
    if r8 == 0 {
      buf[offset] := 0;
    }
    if v {
      buf[offset] := ToByte(Or(buf[offset], Shl(1, r8)));
    }
  }

  lemma HoldsLowIsPack(b: seq<byte>, bits: seq<bool>)
    requires HoldsLow(b, bits) && |b| == HEADER_SIZE + BytesFor(|bits|)
    ensures b == b[..HEADER_SIZE] + PackLow(bits)
  {
    var t := b[HEADER_SIZE..];
    forall i: nat, k: nat | i < |t| && k < 8 ensures Bit(t[i], k) == Pad(bits, 8 * i + k) {
      assert t[i] == b[HEADER_SIZE + i];
    }
    PackLowUnique(t, bits);
  }

  lemma SetBit(b: byte, k: nat)
    requires k < 8
    ensures Or(b, Shl(1, k)) < 256
    ensures forall i: nat :: Bit(Or(b, Shl(1, k)), i) == (i == k || Bit(b, i))
  {
    Pow2Values();
    OrBits(b, Shl(1, k));
    ShlPow(1, k);
    Pow2Bits(k);
    forall i: nat | i >= 8 ensures !Bit(Or(b, Shl(1, k)), i) { HighBitsClear(b, 8, i); }
    BoundFromBits(Or(b, Shl(1, k)), 8);
  }

  // ---- run-length format

  /** The payload bytes up to and including `last` hold `bits`, most significant bit first, padded
      with zeros. */
  ghost predicate HoldsHigh(b: seq<byte>, bits: seq<bool>, last: nat) {
    forall o: nat, m: nat :: HEADER_SIZE <= o <= last && o < |b| && m < 8 ==>
      Bit(b[o], m) == Pad(bits, 8 * (o - HEADER_SIZE) + (7 - m))
  }

  /** Writing an `n`-bit field `f` just below the used bits of a byte. */
  lemma OrField(b: byte, f: nat, n: nat, free: nat)
    requires n <= free <= 8 && f < Pow2(n)
    requires forall m: nat :: m < free ==> !Bit(b, m)
    ensures Or(b, Shl(f, free - n)) < 256
    ensures forall m: nat :: Bit(Or(b, Shl(f, free - n)), m) ==
                             if free - n <= m < free then Bit(f, m - (free - n)) else Bit(b, m)
  {
    hide Or, Shl, Bit, Pow2;
    var lo := free - n;
    var r := Or(b, Shl(f, lo));
    Pow2Values();
    OrBits(b, Shl(f, lo));
    ShlBits(f, lo);
    forall m: nat | m >= free ensures !Bit(Shl(f, lo), m) { HighBitsClear(f, n, m - lo); }
    forall m: nat | m >= 8 ensures !Bit(r, m) { HighBitsClear(b, 8, m); }
    BoundFromBits(r, 8);
  }

  /** The `n` bits of `v` that lie just above its `left` lowest bits. */
  function Field(v: nat, n: nat, left: nat): nat {
    And(Shr(v, left), Ones(n))
  }

  lemma FieldBits(v: nat, n: nat, left: nat)
    ensures Field(v, n, left) < Pow2(n)
    ensures forall m: nat :: Bit(Field(v, n, left), m) == (m < n && Bit(v, m + left))
  {
    AndBits(Shr(v, left), Ones(n));
    ShrBits(v, left);
    OnesBits(n);
    AndOnes(Shr(v, left), n);
  }

  /** Bits `[from, to)` of the big-endian form of `v` in `w` bits. */
  function Part(v: nat, w: nat, from: nat, to: nat): seq<bool>
    requires from <= to <= w
  {
    BigEndian(v, w)[from..to]
  }

  lemma PutFieldHolds(b: seq<byte>, bits: seq<bool>, v: nat, w: nat, toWrite: nat, n: nat, free: nat)
    requires n <= toWrite <= w && n <= free <= 8 && free >= 1
    requires |bits| % 8 == 8 - free
    requires HEADER_SIZE + |bits| / 8 < |b|
    requires HoldsHigh(b, bits, HEADER_SIZE + |bits| / 8)
    ensures var o := HEADER_SIZE + |bits| / 8;
            var x := Or(b[o], Shl(Field(v, n, toWrite - n), free - n));
            && x < 256
            && HoldsHigh(b[o := x], bits + Part(v, w, w - toWrite, w - toWrite + n), o)
  {
    hide Or, Shl, Bit, Pow2, And, Shr;
    var o := HEADER_SIZE + |bits| / 8;
    var f := Field(v, n, toWrite - n);
    FieldBits(v, n, toWrite - n);
    forall m: nat | m < free ensures !Bit(b[o], m) {
      assert Bit(b[o], m) == Pad(bits, 8 * (o - HEADER_SIZE) + (7 - m));
    }
    OrField(b[o], f, n, free);
    var x := Or(b[o], Shl(f, free - n));
    var part := Part(v, w, w - toWrite, w - toWrite + n);
    var b', bits' := b[o := x], bits + part;
    forall i: nat, m: nat | HEADER_SIZE <= i <= o && m < 8
      ensures Bit(b'[i], m) == Pad(bits', 8 * (i - HEADER_SIZE) + (7 - m))
    {
      var p := 8 * (i - HEADER_SIZE) + (7 - m);
      assert Bit(b[i], m) == Pad(bits, p);
      if i == o && free - n <= m < free {
        assert bits'[p] == part[p - |bits|] == Bit(v, toWrite - 1 - (p - |bits|));
      }
    }
  }

  lemma ShiftByZero()
    ensures forall x: nat :: Shr(x, 0) == x
    ensures forall x: nat :: Shl(x, 0) == x
  {
  }

  lemma HoldsHighBeyond(b: seq<byte>, bits: seq<bool>, o: nat)
    requires HoldsHigh(b, bits, o) && o + 1 >= |b|
    ensures HoldsHigh(b, bits, o + 1)
  {
  }

  lemma ZeroByteHolds(b: seq<byte>, bits: seq<bool>, o: nat)
    requires HEADER_SIZE <= o < |b| && |bits| == 8 * (o - HEADER_SIZE)
    requires o == HEADER_SIZE || HoldsHigh(b, bits, o - 1)
    ensures HoldsHigh(b[o := 0], bits, o)
  {
    ZeroBits();
  }

  /** The buffer, offset and free bits that `encodeMaskRunLength` shares with its `writeCounter`. */
  class RunLengthWriter {
    const buf: array<byte>
    const numBitsPerInt: nat
    var bufOffset: nat
    var remainingBits: nat
    ghost var written: seq<bool>  // the bits written after the header

    ghost predicate Valid()
      reads this, buf
    {
      && numBitsPerInt >= 1
      && HEADER_SIZE <= bufOffset <= buf.Length
      && 1 <= remainingBits <= 8
      && (bufOffset == buf.Length ==> remainingBits == 8)
      && |written| == 8 * (bufOffset - HEADER_SIZE) + (8 - remainingBits)
      && HoldsHigh(buf[..], written, bufOffset)
    }

    constructor (buf: array<byte>, numBitsPerInt: nat)
      requires buf.Length > HEADER_SIZE && numBitsPerInt >= 1
      modifies buf
      ensures Valid() && written == [] && this.buf == buf && this.numBitsPerInt == numBitsPerInt
      ensures buf[..HEADER_SIZE] == old(buf[..HEADER_SIZE])
    {
      this.buf, this.numBitsPerInt := buf, numBitsPerInt;
      bufOffset, remainingBits, written := HEADER_SIZE, 8, [];
      new;
      ghost var before := buf[..];
      ZeroByteHolds(before, [], HEADER_SIZE);
      buf[HEADER_SIZE] := 0;
      assert buf[..] == before[HEADER_SIZE := 0];
    }

    /** One round of the loop in `writeCounter`: fills the current byte with as many of the
        `toWrite` low bits of `v` as it can take, and steps to the next byte when it is full. */
    method WriteBits(v: nat, toWrite: nat) returns (left: nat)
      requires Valid() && 1 <= toWrite <= numBitsPerInt
      requires |written| + toWrite <= 8 * (buf.Length - HEADER_SIZE)
      modifies this`bufOffset, this`remainingBits, this`written, buf
      ensures Valid() && left < toWrite
      ensures written == old(written) + Part(v, numBitsPerInt, numBitsPerInt - toWrite, numBitsPerInt - left)
      ensures buf[..HEADER_SIZE] == old(buf[..HEADER_SIZE])
    {
      ShiftByZero();
      hide HoldsHigh, Or, And, Shl, Shr;
      ghost var before, o := buf[..], bufOffset;
      ghost var n := if remainingBits >= toWrite then toWrite else remainingBits;
      PutFieldHolds(before, written, v, numBitsPerInt, toWrite, n, remainingBits);
      if remainingBits >= toWrite {
        var nextRemainingBits := remainingBits - toWrite;
        buf[bufOffset] := ToByte(Or(buf[bufOffset], Shl(And(v, Ones(toWrite)), nextRemainingBits)));
        remainingBits := nextRemainingBits;
        left := 0;
      } else {
        left := toWrite - remainingBits;
        buf[bufOffset] := ToByte(Or(buf[bufOffset], And(Shr(v, left), Ones(remainingBits))));
        remainingBits := 0;
      }
      written := written + Part(v, numBitsPerInt, numBitsPerInt - toWrite, numBitsPerInt - left);
      assert buf[..] == before[o := buf[o]];
      assert HoldsHigh(buf[..], written, o);
      if remainingBits == 0 {
        bufOffset := bufOffset + 1;
        if bufOffset < buf.Length {
          ghost var full := buf[..];
          ZeroByteHolds(full, written, bufOffset);
          buf[bufOffset] := 0;
          assert buf[..] == full[bufOffset := 0];
        } else {
          assert left == 0;  // the source's ASSERT
          HoldsHighBeyond(buf[..], written, o);
        }
        remainingBits := 8;
      }
    }

    /** Appends `counter - 1` as one field; the caller has sized the buffer so that it fits. */
    method WriteCounter(counter: nat)
      requires Valid() && counter >= 1
      requires |written| + numBitsPerInt <= 8 * (buf.Length - HEADER_SIZE)
      modifies this`bufOffset, this`remainingBits, this`written, buf
      ensures Valid() && written == old(written) + BigEndian(counter - 1, numBitsPerInt)
      ensures buf[..HEADER_SIZE] == old(buf[..HEADER_SIZE])
    {
      var numBitsToWrite := numBitsPerInt;
      var valToWrite := counter - 1;
      while numBitsToWrite > 0
        invariant Valid() && 0 <= numBitsToWrite <= numBitsPerInt
        invariant written == old(written) + Part(valToWrite, numBitsPerInt, 0, numBitsPerInt - numBitsToWrite)
        invariant buf[..HEADER_SIZE] == old(buf[..HEADER_SIZE])
      {
        ghost var todo := numBitsToWrite;
        numBitsToWrite := WriteBits(valToWrite, numBitsToWrite);
        PartsJoin(valToWrite, numBitsPerInt, numBitsPerInt - todo, numBitsPerInt - numBitsToWrite);
      }
      PartsJoin(valToWrite, numBitsPerInt, 0, numBitsPerInt);
    }
  }

  lemma PartsJoin(v: nat, w: nat, mid: nat, to: nat)
    requires mid <= to <= w
    ensures Part(v, w, 0, mid) + Part(v, w, mid, to) == Part(v, w, 0, to)
    ensures Part(v, w, 0, w) == BigEndian(v, w)
  {
  }

  /** After `i` values the runs `closed` are written and a run of `counter` values is open. */
  ghost predicate EncodedUpTo(mask: seq<bool>, i: nat, closed: seq<nat>, counter: nat, sign: bool, written: seq<bool>)
    requires 1 <= |mask| < MAX_SIZE
  {
    && 1 <= i <= |mask| && counter >= 1 && Positive(closed)
    && Runs(mask[..i]) == closed + [counter]
    && sign == mask[i - 1]
    && written == Stream(closed, Width(mask))
  }

  lemma UpToStart(mask: seq<bool>)
    requires 1 <= |mask| < MAX_SIZE
    ensures EncodedUpTo(mask, 1, [], 1, mask[0], [])
  {
    assert mask[..1] == [mask[0]];
  }

  lemma UpToSame(mask: seq<bool>, i: nat, closed: seq<nat>, counter: nat, sign: bool, written: seq<bool>)
    requires 1 <= |mask| < MAX_SIZE && i < |mask|
    requires EncodedUpTo(mask, i, closed, counter, sign, written) && mask[i] == sign
    ensures EncodedUpTo(mask, i + 1, closed, counter + 1, sign, written)
  {
    hide Stream, Width, BitWidth;
    assert mask[..i + 1] == mask[..i] + [mask[i]];
    RunsSnoc(mask[..i], mask[i]);
    GrowSnoc(closed, counter);
  }

  lemma UpToFlip(mask: seq<bool>, i: nat, closed: seq<nat>, counter: nat, sign: bool, written: seq<bool>)
    requires 1 <= |mask| < MAX_SIZE && i < |mask|
    requires EncodedUpTo(mask, i, closed, counter, sign, written) && mask[i] != sign
    ensures EncodedUpTo(mask, i + 1, closed + [counter], 1, mask[i], written + BigEndian(counter - 1, Width(mask)))
    ensures |written| + Width(mask) <= 8 * (|EncodedRunLength(mask)| - HEADER_SIZE)
  {
    UpToRoom(mask, i, closed, counter, sign, written);
    assert mask[..i + 1] == mask[..i] + [mask[i]];
    RunsSnoc(mask[..i], mask[i]);
    StreamUnfold(closed, counter, Width(mask));
  }

  /** The sizing pass leaves room for the open run, and none after the last one. */
  lemma UpToRoom(mask: seq<bool>, i: nat, closed: seq<nat>, counter: nat, sign: bool, written: seq<bool>)
    requires 1 <= |mask| < MAX_SIZE
    requires EncodedUpTo(mask, i, closed, counter, sign, written)
    ensures |written| + Width(mask) <= 8 * (|EncodedRunLength(mask)| - HEADER_SIZE)
  {
    RunsGrowWithPrefix(mask, i);
    RunLengthSize(mask);
    StreamLength(closed, Width(mask));
    TimesGap(|closed|, |Runs(mask)|, Width(mask));
  }

  lemma TimesGap(a: nat, b: nat, w: nat)
    requires a < b
    ensures Times(a, w) + w <= Times(b, w)
  {
    MulGap(w, a, b);
  }

  lemma UpToEnd(mask: seq<bool>, closed: seq<nat>, counter: nat, sign: bool, written: seq<bool>)
    requires 1 <= |mask| < MAX_SIZE
    requires EncodedUpTo(mask, |mask|, closed, counter, sign, written)
    ensures Positive(Runs(mask))
    ensures written + BigEndian(counter - 1, Width(mask)) == Stream(Runs(mask), Width(mask))
    ensures |written| + Width(mask) <= 8 * (|EncodedRunLength(mask)| - HEADER_SIZE)
  {
    UpToRoom(mask, |mask|, closed, counter, sign, written);
    assert mask[..|mask|] == mask;
    StreamUnfold(closed, counter, Width(mask));
  }

  /** The encoder's loop over the mask, writing each run as it closes and the last one at the end. */
  method WriteRuns(maskVals: seq<bool>, writer: RunLengthWriter)
    requires 1 <= |maskVals| < MAX_SIZE
    requires writer.Valid() && writer.written == []
    requires writer.numBitsPerInt == Width(maskVals) && writer.buf.Length == |EncodedRunLength(maskVals)|
    modifies writer, writer.buf
    ensures writer.Valid() && Positive(Runs(maskVals))
    ensures writer.written == Stream(Runs(maskVals), Width(maskVals))
    ensures writer.buf[..HEADER_SIZE] == old(writer.buf[..HEADER_SIZE])
  {
    hide EncodedUpTo, EncodedRunLength, Width, HoldsHigh;
    var counter, currentSign := 1, maskVals[0];
    ghost var closed: seq<nat> := [];
    UpToStart(maskVals);
    var i := 1;
    while i < |maskVals|
      invariant 1 <= i <= |maskVals| && counter >= 1
      invariant EncodedUpTo(maskVals, i, closed, counter, currentSign, writer.written)
      invariant writer.Valid() && writer.buf[..HEADER_SIZE] == old(writer.buf[..HEADER_SIZE])
    {
      var v := maskVals[i];
      if v == currentSign {
        UpToSame(maskVals, i, closed, counter, currentSign, writer.written);
        counter := counter + 1;
      } else {
        UpToFlip(maskVals, i, closed, counter, currentSign, writer.written);
        writer.WriteCounter(counter);
        closed := closed + [counter];
        currentSign := v;
        counter := 1;
      }
      i := i + 1;
    }
    UpToEnd(maskVals, closed, counter, currentSign, writer.written);
    writer.WriteCounter(counter);
  }

  /** Encodes the mask's runs; the buffer sized by the properties is filled exactly. */
  method EncodeMaskRunLengthWith(maskVals: seq<bool>, props: Properties) returns (b: seq<byte>)
    requires 1 <= |maskVals| < MAX_SIZE && AreProperties(props, maskVals)
    ensures b == EncodedRunLength(maskVals)
  {
    WidthFits(maskVals);
    RunLengthSize(maskVals);
    var encodedHeader := HeaderBytes(Header(RunLength, |maskVals|, props.numBitsPerInt, props.startValue));
    RunLengthNotEmpty(maskVals);
    var buf := NewBuffer(props.bufSize, encodedHeader);
    var writer := new RunLengthWriter(buf, props.numBitsPerInt);
    WriteRuns(maskVals, writer);
    b := buf[..];
    StreamLength(Runs(maskVals), props.numBitsPerInt);
    HoldsHighIsPack(b, writer.written, writer.bufOffset);
  }

  lemma RunLengthNotEmpty(mask: seq<bool>)
    requires 1 <= |mask| < MAX_SIZE
    ensures |EncodedRunLength(mask)| > HEADER_SIZE
  {
    UpToStart(mask);
    UpToRoom(mask, 1, [], 1, mask[0], []);
    WidthFits(mask);
  }

  lemma {:induction false} RunsGrowWithPrefix(mask: seq<bool>, i: nat)
    requires 1 <= i <= |mask|
    ensures |Runs(mask[..i])| <= |Runs(mask)|
    decreases |mask| - i
  {
    if i < |mask| {
      assert mask[..i + 1] == mask[..i] + [mask[i]];
      RunsSnoc(mask[..i], mask[i]);
      RunsGrowWithPrefix(mask, i + 1);
    } else {
      assert mask[..i] == mask;
    }
  }

  lemma HoldsHighIsPack(b: seq<byte>, bits: seq<bool>, last: nat)
    requires |b| == HEADER_SIZE + BytesFor(|bits|) && last >= HEADER_SIZE + |bits| / 8
    requires HoldsHigh(b, bits, last)
    ensures b == b[..HEADER_SIZE] + Pack(bits)
  {
    var t := b[HEADER_SIZE..];
    forall i: nat, m: nat | i < |t| && m < 8 ensures Bit(t[i], m) == Pad(bits, 8 * i + (7 - m)) {
      assert t[i] == b[HEADER_SIZE + i];
    }
    PackUnique(t, bits);
  }

  method EncodeMaskRunLength(maskVals: seq<bool>) returns (b: seq<byte>)
    requires 1 <= |maskVals| < MAX_SIZE
    ensures b == EncodedRunLength(maskVals)
  {
    var props := ComputeMaskRunLengthProperties(maskVals);
    b := EncodeMaskRunLengthWith(maskVals, props);
  }

  /** Picks the shorter format, run length on a tie. */
  method EncodeMask(maskVals: seq<bool>) returns (b: seq<byte>)
    requires 1 <= |maskVals| < MAX_SIZE
    ensures b == EncodedMask(maskVals)
    ensures |b| <= |EncodedBitMask(maskVals)| && |b| <= |EncodedRunLength(maskVals)|
  {
    var props := ComputeMaskRunLengthProperties(maskVals);
    if ComputeBufferSizeMaskBitMask(|maskVals|) < props.bufSize {
      b := EncodeMaskBitMask(maskVals);
    } else {
      b := EncodeMaskRunLengthWith(maskVals, props);
    }
  }
}
