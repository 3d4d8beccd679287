/** The two stateful mask decoders, each proved against a step function on its fields. */
module MaskDecode {
  import opened Wrappers
  import opened Bits
  import opened MaskHeader
  import opened MaskFormat

  // ---- what one field decodes to

  /** The `w` payload bits from `pos`, and the big-endian number they form. */
  function FieldSeq(payload: seq<byte>, pos: nat, w: nat): (bits: seq<bool>)
    ensures |bits| == w
    ensures forall k: nat :: k < w ==> bits[k] == PayloadBit(payload, pos + k)
  {
    seq(w, (k: nat) => PayloadBit(payload, pos + k))
  }

  function FieldValue(payload: seq<byte>, pos: nat, w: nat): nat {
    Value(FieldSeq(payload, pos, w))
  }

  /** The decoder assembles a field with `int` shifts and widens the result to 64 bits, so a field
      whose 32nd bit is set is sign-extended. */
  function Decoded(payload: seq<byte>, pos: nat, w: nat): (v: nat)
    requires 1 <= w <= 32
    ensures v < WORD
  {
    FieldBound(payload, pos, w);
    var f := FieldValue(payload, pos, w);
    if f >= 0x8000_0000 then f + (WORD - 0x1_0000_0000) else f
  }

  lemma FieldBound(payload: seq<byte>, pos: nat, w: nat)
    requires w <= 32
    ensures FieldValue(payload, pos, w) < 0x1_0000_0000
  {
    ValueBound(FieldSeq(payload, pos, w));
    Pow2Mono(w, 32);
    Pow2Values();
  }

  lemma FieldBit(payload: seq<byte>, pos: nat, w: nat)
    ensures forall i: nat :: Bit(FieldValue(payload, pos, w), i) == (i < w && PayloadBit(payload, pos + (w - 1 - i)))
  {
    ValueBits(FieldSeq(payload, pos, w));
  }

  /** `x << n` in a 32-bit `int`. */
  function ShiftInt(x: nat, n: nat): int {
    var y := Shl(x, n);
    var u := if y < 0x1_0000_0000 then y else y % 0x1_0000_0000;
    if u >= 0x8000_0000 then u - 0x1_0000_0000 else u
  }

  lemma SignExtended(f: nat, g: nat)
    requires 0x8000_0000 <= f < 0x1_0000_0000 && g == f + (WORD - 0x1_0000_0000)
    ensures Wrap(f - 0x1_0000_0000) == g
    ensures forall i: nat :: Bit(g, i) == (Bit(f, i) || 32 <= i < 64)
  {
    hide Or, Shl, Pow2, Bit, And;
    Pow2Values();
    ShlPow(1, 32);
    ShlPow(Ones(32), 32);
    OrAdd(Ones(32), 32, f);
    OrBits(Shl(Ones(32), 32), f);
    ShlBits(Ones(32), 32);
    OnesBits(32);
    assert g == Or(Shl(Ones(32), 32), f);
  }

  lemma TopBitOfInt(f: nat)
    requires f < 0x1_0000_0000
    ensures f >= 0x8000_0000 <==> Bit(f, 31)
  {
    Pow2Values();
    ShrDiv(f, 31);
    ShrBit(f, 31, 0);
  }

  // ---- one pass of the reading loop

  /** After all but the `todo` last bits of the field at `pos` are read, `acc` holds them, extended
      with the sign once the first bit of a 32-bit field has been read. */
  ghost predicate Holds(acc: nat, payload: seq<byte>, pos: nat, w: nat, todo: nat) {
    forall i: nat :: Bit(acc, i) ==
      if todo <= i < w then PayloadBit(payload, pos + (w - 1 - i))
      else 32 <= i < 64 && w == 32 && todo < 32 && PayloadBit(payload, pos)
  }

  lemma HoldsAtStart(payload: seq<byte>, pos: nat, w: nat)
    requires 1 <= w <= 32
    ensures Holds(0, payload, pos, w, w)
  {
    ZeroBits();
  }

  lemma HoldsAtEnd(acc: nat, payload: seq<byte>, pos: nat, w: nat)
    requires 1 <= w <= 32 && Holds(acc, payload, pos, w, 0)
    ensures acc == Decoded(payload, pos, w)
  {
    var f := FieldValue(payload, pos, w);
    FieldBound(payload, pos, w);
    FieldBit(payload, pos, w);
    TopBitOfInt(f);
    assert w == 32 ==> pos + (w - 1 - 31) == pos;
    assert f >= 0x8000_0000 <==> w == 32 && PayloadBit(payload, pos);
    var d := Decoded(payload, pos, w);
    if f >= 0x8000_0000 {
      SignExtended(f, d);
    }
    forall i: nat ensures Bit(acc, i) == Bit(d, i) {
      assert Bit(f, i) == (i < w && PayloadBit(payload, pos + (w - 1 - i)));
    }
    SameBits(acc, d);
  }

  /** Bits beyond the end of the payload read as zero, so stopping there leaves the field complete. */
  lemma HoldsPastEnd(acc: nat, payload: seq<byte>, pos: nat, w: nat, todo: nat)
    requires 1 <= w <= 32 && todo < w && Holds(acc, payload, pos, w, todo)
    requires pos + (w - todo) >= 8 * (|payload| - HEADER_SIZE)
    ensures Holds(acc, payload, pos, w, 0)
  {
  }

  /** The byte under the cursor supplies the next bits of the payload. */
  lemma CursorBits(payload: seq<byte>, offset: nat, free: nat, j: nat)
    requires HEADER_SIZE <= offset < |payload| && j < free <= 8
    ensures PayloadBit(payload, 8 * (offset - HEADER_SIZE) + (8 - free) + j) == Bit(payload[offset], free - 1 - j)
  {
    assert 8 - free + j < 8;
  }

  /** The last `n` bits of a field, all in the current byte. */
  function LowChunk(b: byte, n: nat, left: nat): nat {
    Shr(And(b, Shl(Ones(n), left)), left)
  }

  /** The low `n` bits of the current byte, moved above the `todo` bits still to be read. */
  function HighChunk(b: byte, n: nat, todo: nat): nat {
    Wrap(ShiftInt(And(b, Ones(n)), todo))
  }

  lemma LowChunkBits(b: byte, n: nat, left: nat)
    ensures forall i: nat :: Bit(LowChunk(b, n, left), i) == (i < n && Bit(b, i + left))
  {
    var mask := Shl(Ones(n), left);
    OnesBits(n);
    ShlBits(Ones(n), left);
    AndBits(b, mask);
    ShrBits(And(b, mask), left);
  }

  lemma ShiftedBits(b: byte, n: nat, todo: nat)
    requires 1 <= n <= 8 && n + todo <= 32
    ensures var y := Shl(And(b, Ones(n)), todo);
            && y < 0x1_0000_0000
            && (y >= 0x8000_0000 <==> n + todo == 32 && Bit(b, n - 1))
            && forall i: nat :: Bit(y, i) == (todo <= i < todo + n && Bit(b, i - todo))
  {
    var x := And(b, Ones(n));
    var y := Shl(x, todo);
    OnesBits(n);
    AndBits(b, Ones(n));
    ShlBits(x, todo);
    BoundFromBits(y, 32);
    Pow2Values();
    TopBitOfInt(y);
  }

  lemma HighChunkBits(b: byte, n: nat, todo: nat)
    requires 1 <= n <= 8 && n + todo <= 32
    ensures forall i: nat :: Bit(HighChunk(b, n, todo), i) ==
                             ((todo <= i < todo + n && Bit(b, i - todo))
                              || (n + todo == 32 && 32 <= i < 64 && Bit(b, n - 1)))
  {
    var y := Shl(And(b, Ones(n)), todo);
    ShiftedBits(b, n, todo);
    if y >= 0x8000_0000 {
      SignExtended(y, HighChunk(b, n, todo));
    }
  }

  lemma HoldsLow(acc: nat, payload: seq<byte>, pos: nat, w: nat, todo: nat, offset: nat, free: nat)
    requires 1 <= w <= 32 && 1 <= todo <= w && todo <= free <= 8 && HEADER_SIZE <= offset < |payload|
    requires pos + (w - todo) == 8 * (offset - HEADER_SIZE) + (8 - free)
    requires Holds(acc, payload, pos, w, todo)
    ensures Holds(Or(acc, LowChunk(payload[offset], todo, free - todo)), payload, pos, w, 0)
  {
    hide Or, Shl, Pow2, Bit, And, Shr, LowChunk;
    var c := LowChunk(payload[offset], todo, free - todo);
    LowChunkBits(payload[offset], todo, free - todo);
    OrBits(acc, c);
    forall i: nat | i < todo ensures Bit(c, i) == PayloadBit(payload, pos + (w - 1 - i)) {
      CursorBits(payload, offset, free, todo - 1 - i);
    }
  }

  lemma HoldsHigh(acc: nat, payload: seq<byte>, pos: nat, w: nat, todo: nat, offset: nat, free: nat)
    requires 1 <= w <= 32 && todo <= w && 1 <= free < todo && free <= 8 && HEADER_SIZE <= offset < |payload|
    requires pos + (w - todo) == 8 * (offset - HEADER_SIZE) + (8 - free)
    requires Holds(acc, payload, pos, w, todo)
    ensures Holds(Or(acc, HighChunk(payload[offset], free, todo - free)), payload, pos, w, todo - free)
  {
    hide Or, Shl, Pow2, Bit, And, Shr, HighChunk;
    var left := todo - free;
    var c := HighChunk(payload[offset], free, left);
    HighChunkBits(payload[offset], free, left);
    OrBits(acc, c);
    forall i: nat | left <= i < todo ensures Bit(c, i) == PayloadBit(payload, pos + (w - 1 - i)) {
      CursorBits(payload, offset, free, todo - 1 - i);
    }
    CursorBits(payload, offset, free, 0);
  }

  // ---- the run-length iterator

  datatype RunState = RunState(index: nat, offset: nat, remaining: nat, value: bool, length: nat)

  /** The `int` shifts of the decoder are defined for widths of at most 32 bits. */
  predicate RunHeader(h: Header) {
    h.format.RunLength? && 1 <= h.numBitsPerInt <= 32
  }

  /** The next step stays inside the payload. */
  predicate CanStep(payload: seq<byte>, h: Header, s: RunState) {
    && RunHeader(h)
    && (Wrap(s.index + s.length) < h.numBits ==> HEADER_SIZE <= s.offset < |payload| && 1 <= s.remaining <= 8)
  }

  function Position(s: RunState): nat
    requires HEADER_SIZE <= s.offset && s.remaining <= 8
  {
    8 * (s.offset - HEADER_SIZE) + (8 - s.remaining)
  }

  /** Offset and remaining bits once the payload is read up to bit `pos`. */
  function CursorAt(payload: seq<byte>, pos: nat): (nat, nat) {
    if pos >= 8 * (|payload| - HEADER_SIZE) then (|payload|, 0) else (HEADER_SIZE + pos / 8, 8 - pos % 8)
  }

  /** `RunLengthIterator::updateValue`: past the last value only the index moves. */
  function NextRun(payload: seq<byte>, h: Header, s: RunState): RunState
    requires CanStep(payload, h, s)
  {
    var index := Wrap(s.index + s.length);
    if index >= h.numBits then s.(index := index)
    else
      var (offset, remaining) := CursorAt(payload, Position(s) + h.numBitsPerInt);
      RunState(index, offset, remaining, !s.value, Wrap(Decoded(payload, Position(s), h.numBitsPerInt) + 1))
  }

  /** The fields before the constructor reads the first value. */
  function InitialRun(h: Header): RunState {
    RunState(0, HEADER_SIZE, 8, !h.startValue, 0)
  }

  /** `begin()`, or `end()` when `toEnd` is set. */
  function BeginRun(payload: seq<byte>, h: Header, toEnd: bool): Result<RunState>
    requires !toEnd && h.format.RunLength? ==> CanStep(payload, h, InitialRun(h))
  {
    if !h.format.RunLength? then Failed
    else if toEnd then Ok(InitialRun(h).(index := h.numBits))
    else Ok(NextRun(payload, h, InitialRun(h)))
  }

  class RunLengthIterator {
    const payload: seq<byte>
    const header: Header
    var index: nat
    var runLengthOffset: nat
    var runLengthRemainingBits: nat
    var val: (bool, nat)

    function State(): RunState
      reads this
    {
      RunState(index, runLengthOffset, runLengthRemainingBits, val.0, val.1)
    }

    constructor (payload: seq<byte>, header: Header, toEnd: bool)
      requires header.format.RunLength?  // otherwise the source throws, as BeginRun does
      requires !toEnd ==> CanStep(payload, header, InitialRun(header))
      ensures this.payload == payload && this.header == header
      ensures State() == BeginRun(payload, header, toEnd).value
    {
      this.payload, this.header := payload, header;
      index, runLengthOffset, runLengthRemainingBits, val := 0, HEADER_SIZE, 8, (!header.startValue, 0);
      new;
      if toEnd {
        index := header.numBits;
      } else {
        UpdateValue();
      }
    }

    method UpdateValue()
      requires CanStep(payload, header, State())
      modifies this
      ensures State() == NextRun(payload, header, old(State()))
    {
      index := Wrap(index + val.1);
      if index >= header.numBits {
        return;
      }
      var acc := ReadField();
      val := (!val.0, Wrap(acc + 1));
    }

    /** The reading loop: one field from the cursor, stopping early at the end of the payload. */
    method ReadField() returns (acc: nat)
      requires HEADER_SIZE <= runLengthOffset < |payload| && 1 <= runLengthRemainingBits <= 8
      requires RunHeader(header)
      modifies this`runLengthOffset, this`runLengthRemainingBits
      ensures acc == Decoded(payload, old(Position(State())), header.numBitsPerInt)
      ensures (runLengthOffset, runLengthRemainingBits)
              == CursorAt(payload, old(Position(State())) + header.numBitsPerInt)
    {
      hide Holds, Or, And, Shl, Shr, Decoded, Bit;
      ghost var pos, w := Position(State()), header.numBitsPerInt;
      var numBitsToRead := header.numBitsPerInt;
      var b := payload[runLengthOffset];
      acc := 0;
      HoldsAtStart(payload, pos, w);
      while numBitsToRead > 0
        invariant 0 <= numBitsToRead <= w
        invariant HEADER_SIZE <= runLengthOffset < |payload| && 1 <= runLengthRemainingBits <= 8
        invariant b == payload[runLengthOffset]
        invariant pos + (w - numBitsToRead) == Position(State())
        invariant Holds(acc, payload, pos, w, numBitsToRead)
      {
        if runLengthRemainingBits >= numBitsToRead {
          var nextRemainingBits := runLengthRemainingBits - numBitsToRead;
          HoldsLow(acc, payload, pos, w, numBitsToRead, runLengthOffset, runLengthRemainingBits);
          acc := Or(acc, Shr(And(b, Shl(Ones(numBitsToRead), nextRemainingBits)), nextRemainingBits));
          runLengthRemainingBits := nextRemainingBits;
          numBitsToRead := 0;
        } else {
          var nextNumBitsToRead := numBitsToRead - runLengthRemainingBits;
          HoldsHigh(acc, payload, pos, w, numBitsToRead, runLengthOffset, runLengthRemainingBits);
          acc := Or(acc, Wrap(ShiftInt(And(b, Ones(runLengthRemainingBits)), nextNumBitsToRead)));
          numBitsToRead := nextNumBitsToRead;
          runLengthRemainingBits := 0;
        }
        if runLengthRemainingBits == 0 {
          runLengthOffset := runLengthOffset + 1;
          if runLengthOffset >= |payload| {
            HoldsPastEnd(acc, payload, pos, w, numBitsToRead);
            break;
          }
          b := payload[runLengthOffset];
          runLengthRemainingBits := 8;
        }
      }
      HoldsAtEnd(acc, payload, pos, w);
    }
  }

  // ---- the value-by-value iterator

  datatype RunCursor = NoRun | InRun(run: RunState, counter: nat)

  datatype BitState = BitState(index: nat, val: bool, rl: RunCursor)

  /** Value `index` of a bit-mask payload, as the source extracts it. */
  function MaskBit(payload: seq<byte>, index: nat): (v: bool)
    requires HEADER_SIZE + index / 8 < |payload|
    ensures v == Bit(payload[HEADER_SIZE + index / 8], index % 8)
  {
    ShrDiv(index, 3);
    AndOnes(index, 3);
    Pow2Values();
    var b := payload[HEADER_SIZE + Shr(index, 3)];
    ShrBit(b, And(index, Ones(3)), 0);
    AndOnes(Shr(b, And(index, Ones(3))), 1);
    And(Shr(b, And(index, Ones(3))), Ones(1)) == 1
  }

  predicate CanBegin(payload: seq<byte>, h: Header) {
    && 1 <= h.numBits
    && (h.format.RunLength? ==> CanStep(payload, h, InitialRun(h)))
  }

  /** `begin()` or `end()`; a bit-mask payload must have exactly the expected size. */
  function BeginBits(payload: seq<byte>, h: Header, toEnd: bool): Result<BitState>
    requires toEnd || CanBegin(payload, h)
  {
    if toEnd then Ok(BitState(h.numBits, h.startValue, NoRun))
    else if h.format.BitMask? then
      if |payload| != HEADER_SIZE + BytesFor(h.numBits) then Failed
      else Ok(BitState(0, MaskBit(payload, 0), NoRun))
    else
      var run := NextRun(payload, h, InitialRun(h));
      Ok(BitState(0, run.value, InRun(run, 0)))
  }

  predicate CanAdvance(payload: seq<byte>, h: Header, s: BitState) {
    s.index + 1 < h.numBits ==>
      if h.format.BitMask? then HEADER_SIZE + (s.index + 1) / 8 < |payload|
      else s.rl.InRun? && (s.rl.counter + 1 >= s.rl.run.length ==> CanStep(payload, h, s.rl.run))
  }

  /** `MaskPayloadIterator::operator++`. */
  function NextBit(payload: seq<byte>, h: Header, s: BitState): BitState
    requires CanAdvance(payload, h, s)
  {
    if s.index + 1 >= h.numBits then s.(index := h.numBits)
    else if h.format.BitMask? then BitState(s.index + 1, MaskBit(payload, s.index + 1), s.rl)
    else if s.rl.counter + 1 >= s.rl.run.length then
      var run := NextRun(payload, h, s.rl.run);
      BitState(s.index + 1, run.value, InRun(run, 0))
    else BitState(s.index + 1, s.val, InRun(s.rl.run, s.rl.counter + 1))
  }

  class MaskPayloadIterator {
    const payload: seq<byte>
    const header: Header
    var index: nat
    var val: bool
    var it: RunLengthIterator?
    var counter: nat

    ghost predicate Valid()
      reads this
    {
      it != null ==> it.payload == payload && it.header == header
    }

    function State(): BitState
      reads this, it
    {
      BitState(index, val, if it == null then NoRun else InRun(it.State(), counter))
    }

    constructor (payload: seq<byte>, header: Header, toEnd: bool)
      requires toEnd || CanBegin(payload, header)
      requires BeginBits(payload, header, toEnd).Ok?  // otherwise the source throws
      ensures Valid() && this.payload == payload && this.header == header && (it != null ==> fresh(it))
      ensures State() == BeginBits(payload, header, toEnd).value
    {
      this.payload, this.header := payload, header;
      index, val, it, counter := 0, header.startValue, null, 0;
      new;
      if toEnd {
        index := header.numBits;
      } else if header.format.BitMask? {
        val := MaskBit(payload, index);
      } else {
        it := new RunLengthIterator(payload, header, false);
        val := it.val.0;
      }
    }

    method Advance()
      requires Valid() && CanAdvance(payload, header, State())
      modifies this, it
      ensures Valid() && it == old(it)
      ensures State() == NextBit(payload, header, old(State()))
    {
      if header.format.RunLength? {
        if index + 1 < header.numBits {
          index := index + 1;
          counter := counter + 1;
          if counter >= it.val.1 {
            it.UpdateValue();
            counter := 0;
            val := it.val.0;
          }
        } else {
          index := header.numBits;
        }
      } else {
        if index + 1 < header.numBits {
          index := index + 1;
          val := MaskBit(payload, index);
        } else {
          index := header.numBits;
        }
      }
    }
  }
}
