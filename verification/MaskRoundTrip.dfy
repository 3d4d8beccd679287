/** What the iterators read back from an encoded mask. */
module MaskRoundTrip {
  import opened Wrappers
  import opened Arithmetic
  import opened Bits
  import opened MaskRuns
  import opened MaskHeader
  import opened MaskFormat
  import opened MaskDecode

  const INT_LIMIT: nat := 0x8000_0000  // 2^31

  /** Iterating from `s` gives exactly these values and run lengths, and then `end()`. */
  predicate Yields(payload: seq<byte>, h: Header, s: RunState, pairs: seq<(bool, nat)>)
    decreases |pairs|
  {
    if pairs == [] then s.index == h.numBits
    else
      && s.index != h.numBits
      && (s.value, s.length) == pairs[0]
      && CanStep(payload, h, s)
      && Yields(payload, h, NextRun(payload, h, s), pairs[1..])
  }

  /** Iterating from `s` gives exactly these values, and then `end()`. */
  predicate YieldsBits(payload: seq<byte>, h: Header, s: BitState, bits: seq<bool>)
    decreases |bits|
  {
    if bits == [] then s.index == h.numBits
    else
      && s.index != h.numBits
      && s.val == bits[0]
      && CanAdvance(payload, h, s)
      && YieldsBits(payload, h, NextBit(payload, h, s), bits[1..])
  }

  /** The run-length payload decodes to these alternating runs. */
  predicate DecodesToRuns(payload: seq<byte>, pairs: seq<(bool, nat)>) {
    && DecodeHeader(payload).Ok?
    && var h := DecodeHeader(payload).value;
    && h.format.RunLength? && CanStep(payload, h, InitialRun(h))
    && Yields(payload, h, BeginRun(payload, h, false).value, pairs)
  }

  /** The payload, in either format, decodes to these values. */
  predicate DecodesToBits(payload: seq<byte>, bits: seq<bool>) {
    && DecodeHeader(payload).Ok?
    && var h := DecodeHeader(payload).value;
    && h.numBits == |bits| && CanBegin(payload, h) && BeginBits(payload, h, false).Ok?
    && YieldsBits(payload, h, BeginBits(payload, h, false).value, bits)
  }

  lemma {:induction false} YieldsUnique(payload: seq<byte>, h: Header, s: BitState, a: seq<bool>, b: seq<bool>)
    requires YieldsBits(payload, h, s, a) && YieldsBits(payload, h, s, b)
    ensures a == b
    decreases |a|
  {
    if a != [] && b != [] {
      YieldsUnique(payload, h, NextBit(payload, h, s), a[1..], b[1..]);
      assert a == [a[0]] + a[1..] && b == [b[0]] + b[1..];
    }
  }

  /** A payload decodes to at most one sequence of values. */
  lemma DecodesUnique(payload: seq<byte>, a: seq<bool>, b: seq<bool>)
    requires DecodesToBits(payload, a) && DecodesToBits(payload, b)
    ensures a == b
  {
    var h := DecodeHeader(payload).value;
    YieldsUnique(payload, h, BeginBits(payload, h, false).value, a, b);
  }

  ghost predicate Readable(payload: seq<byte>) {
    exists bits :: DecodesToBits(payload, bits)
  }

  /** The values a readable payload decodes to. */
  ghost function Values(payload: seq<byte>): (bits: seq<bool>)
    requires Readable(payload)
    ensures DecodesToBits(payload, bits)
  {
    var bits :| DecodesToBits(payload, bits);
    bits
  }

  /** The source throws on the payload: it has no header, or it is a bit mask of another size than its
      header says. */
  predicate Rejected(payload: seq<byte>) {
    || DecodeHeader(payload).Failed?
    || (var h := DecodeHeader(payload).value;
        h.format.BitMask? && |payload| != HEADER_SIZE + BytesFor(h.numBits))
  }

  /** In the payload's own bytes: no five bytes, or the first one says bit mask and the size is not
      that of the header and one bit for each of the values counted by the other four. */
  lemma RejectedIs(payload: seq<byte>)
    ensures Rejected(payload) <==>
            || |payload| < 5
            || (payload[0] < 128
                && |payload| != 5 + (payload[1] as nat * 0x100_0000 + payload[2] as nat * 0x1_0000
                                     + payload[3] as nat * 256 + payload[4] as nat + 7) / 8)
  {
    hide DecodeHeader;
    if |payload| >= HEADER_SIZE {
      DecodedHeaderIs(payload);
    } else {
      assert DecodeHeader(payload).Failed? by { NoHeader(payload); }
    }
  }

  lemma NoHeader(payload: seq<byte>)
    requires |payload| < HEADER_SIZE
    ensures DecodeHeader(payload).Failed?
  {
  }

  lemma RejectedUnreadable(payload: seq<byte>)
    requires Rejected(payload)
    ensures !Readable(payload)
  {
    forall bits ensures !DecodesToBits(payload, bits) { }
  }

  /** Reading the payload throws or ends, and does not run past the end of the buffer. */
  ghost predicate Defined(payload: seq<byte>) {
    Rejected(payload) || Readable(payload)
  }

  // ---- payloads that hold a list of runs

  /** The payload holds the runs, each less one, in consecutive fields of the header's width. */
  ghost predicate Encodes(payload: seq<byte>, h: Header, runs: seq<nat>) {
    && RunHeader(h) && runs != [] && Positive(runs) && Sum(runs) == h.numBits < MAX_SIZE
    && |payload| == HEADER_SIZE + BytesFor(Times(|runs|, h.numBitsPerInt))
    && forall j: nat :: j < |runs| ==>
         FieldValue(payload, Times(j, h.numBitsPerInt), h.numBitsPerInt) == runs[j] - 1
  }

  lemma PackedFieldBit(header: seq<byte>, runs: seq<nat>, w: nat, j: nat, k: nat)
    requires |header| == HEADER_SIZE && Positive(runs) && j < |runs| && k < w
    ensures FieldSeq(header + Pack(Stream(runs, w)), Times(j, w), w)[k] == BigEndian(runs[j] - 1, w)[k]
  {
    PackedBit(header, Stream(runs, w), Times(j, w) + k);
    StreamField(runs, w, j, k);
  }

  lemma PackedField(header: seq<byte>, runs: seq<nat>, w: nat, j: nat)
    requires |header| == HEADER_SIZE && Positive(runs) && j < |runs| && runs[j] <= Pow2(w)
    ensures FieldValue(header + Pack(Stream(runs, w)), Times(j, w), w) == runs[j] - 1
  {
    hide Value, PayloadBit, Stream, Pack;
    ValueBigEndian(runs[j] - 1, w);
    var field := FieldSeq(header + Pack(Stream(runs, w)), Times(j, w), w);
    assert field == BigEndian(runs[j] - 1, w) by {
      forall k: nat | k < w ensures field[k] == BigEndian(runs[j] - 1, w)[k] {
        PackedFieldBit(header, runs, w, j, k);
      }
    }
  }

  lemma PackedEncodes(header: seq<byte>, h: Header, runs: seq<nat>)
    requires |header| == HEADER_SIZE && RunHeader(h)
    requires runs != [] && Positive(runs) && Sum(runs) == h.numBits < MAX_SIZE
    requires Longest(runs) <= Pow2(h.numBitsPerInt)
    ensures Encodes(header + Pack(Stream(runs, h.numBitsPerInt)), h, runs)
  {
    var w := h.numBitsPerInt;
    StreamLength(runs, w);
    forall j: nat | j < |runs|
      ensures FieldValue(header + Pack(Stream(runs, w)), Times(j, w), w) == runs[j] - 1
    {
      LongestBounds(runs, j);
      PackedField(header, runs, w, j);
    }
  }

  /** The encoder's output holds the runs of the mask. */
  lemma EncodedHolds(mask: seq<bool>)
    requires 1 <= |mask| < MAX_SIZE
    ensures DecodeHeader(EncodedRunLength(mask)) == Ok(RunLengthHeader(mask))
    ensures Encodes(EncodedRunLength(mask), RunLengthHeader(mask), Runs(mask))
  {
    var h := RunLengthHeader(mask);
    WidthFits(mask);
    RunsPositive(mask);
    RunsSum(mask);
    HeaderBytesDecode(h, Pack(Stream(Runs(mask), Width(mask))));
    PackedEncodes(HeaderBytes(h), h, Runs(mask));
  }

  // ---- the states of the run-length iterator

  /** The length read for a run of `r`: runs longer than `2^31` come out sign-extended. */
  function ReadLength(r: nat): nat {
    if r <= INT_LIMIT then r else Wrap(r + (WORD - 0x1_0000_0000))
  }

  /** The iterator standing on run `j`. */
  function OnRun(payload: seq<byte>, h: Header, runs: seq<nat>, j: nat): RunState
    requires j < |runs|
  {
    var (offset, remaining) := CursorAt(payload, Times(j + 1, h.numBitsPerInt));
    RunState(Sum(runs[..j]), offset, remaining, Sign(h.startValue, j), ReadLength(runs[j]))
  }

  lemma CursorInside(payload: seq<byte>, h: Header, runs: seq<nat>, j: nat)
    requires Encodes(payload, h, runs) && j < |runs|
    ensures var (offset, remaining) := CursorAt(payload, Times(j, h.numBitsPerInt));
            && HEADER_SIZE <= offset < |payload| && 1 <= remaining <= 8
            && 8 * (offset - HEADER_SIZE) + (8 - remaining) == Times(j, h.numBitsPerInt)
    ensures Times(j + 1, h.numBitsPerInt) == Times(j, h.numBitsPerInt) + h.numBitsPerInt
  {
    MulGap(h.numBitsPerInt, j, |runs|);
  }

  lemma RunEnds(payload: seq<byte>, h: Header, runs: seq<nat>, j: nat)
    requires Encodes(payload, h, runs) && j < |runs|
    ensures Sum(runs[..j + 1]) == Sum(runs[..j]) + runs[j]
    ensures 1 <= runs[j] <= Sum(runs[..j + 1]) <= h.numBits
    ensures j + 1 < |runs| ==> Sum(runs[..j + 1]) < h.numBits
    ensures j + 1 == |runs| ==> Sum(runs[..j + 1]) == h.numBits
  {
    SumPrefix(runs, j);
    SumPrefix(runs, j + 1);
    if j + 1 < |runs| {
      SumPrefix(runs, j + 2);
    } else {
      assert runs[..j + 1] == runs;
    }
  }

  /** A state whose cursor stands before field `j` and whose index arrives at run `j` steps onto
      run `j`. */
  lemma StepOnto(payload: seq<byte>, h: Header, runs: seq<nat>, j: nat, s: RunState)
    requires Encodes(payload, h, runs) && j < |runs|
    requires (s.offset, s.remaining) == CursorAt(payload, Times(j, h.numBitsPerInt)) && s.value != Sign(h.startValue, j)
    requires s.index + s.length == Sum(runs[..j])
    ensures CanStep(payload, h, s) && NextRun(payload, h, s) == OnRun(payload, h, runs, j)
  {
    var w := h.numBitsPerInt;
    CursorInside(payload, h, runs, j);
    RunEnds(payload, h, runs, j);
    LengthRead(payload, h, runs, j);
    assert Position(s) == Times(j, w);
  }

  lemma LengthRead(payload: seq<byte>, h: Header, runs: seq<nat>, j: nat)
    requires Encodes(payload, h, runs) && j < |runs|
    ensures Wrap(Decoded(payload, Times(j, h.numBitsPerInt), h.numBitsPerInt) + 1) == ReadLength(runs[j])
  {
    RunEnds(payload, h, runs, j);
    assert FieldValue(payload, Times(j, h.numBitsPerInt), h.numBitsPerInt) == runs[j] - 1;
  }

  lemma StepOntoFirst(payload: seq<byte>, h: Header, runs: seq<nat>)
    requires Encodes(payload, h, runs)
    ensures CanStep(payload, h, InitialRun(h))
    ensures NextRun(payload, h, InitialRun(h)) == OnRun(payload, h, runs, 0)
  {
    assert runs[..0] == [];
    CursorInside(payload, h, runs, 0);
    StepOnto(payload, h, runs, 0, InitialRun(h));
  }

  lemma StepOntoNext(payload: seq<byte>, h: Header, runs: seq<nat>, j: nat)
    requires Encodes(payload, h, runs) && j + 1 < |runs| && runs[j] <= INT_LIMIT
    ensures CanStep(payload, h, OnRun(payload, h, runs, j))
    ensures NextRun(payload, h, OnRun(payload, h, runs, j)) == OnRun(payload, h, runs, j + 1)
  {
    var s := OnRun(payload, h, runs, j);
    assert s.index + s.length == Sum(runs[..j + 1]) by { RunEnds(payload, h, runs, j); }
    SignFlips(h.startValue, j);
    StepOnto(payload, h, runs, j + 1, s);
  }

  lemma StepPastLast(payload: seq<byte>, h: Header, runs: seq<nat>)
    requires Encodes(payload, h, runs) && runs[|runs| - 1] <= INT_LIMIT
    ensures var s := OnRun(payload, h, runs, |runs| - 1);
            CanStep(payload, h, s) && NextRun(payload, h, s).index == h.numBits
  {
    RunEnds(payload, h, runs, |runs| - 1);
  }

  // ---- run by run

  /** Value and length of the runs from number `j` on. */
  function PairsFrom(start: bool, runs: seq<nat>, j: nat): (pairs: seq<(bool, nat)>)
    requires j <= |runs|
    decreases |runs| - j
  {
    if j == |runs| then [] else [(Sign(start, j), runs[j])] + PairsFrom(start, runs, j + 1)
  }

  predicate ShortFrom(runs: seq<nat>, j: nat) {
    forall k :: j <= k < |runs| ==> runs[k] <= INT_LIMIT
  }

  /** One step of the iteration: a run is read correctly exactly when it is not too long. */
  lemma YieldsStep(payload: seq<byte>, h: Header, runs: seq<nat>, j: nat)
    requires Encodes(payload, h, runs) && j < |runs|
    ensures Yields(payload, h, OnRun(payload, h, runs, j), PairsFrom(h.startValue, runs, j)) <==>
            && runs[j] <= INT_LIMIT
            && (j + 1 < |runs| ==>
                  Yields(payload, h, OnRun(payload, h, runs, j + 1), PairsFrom(h.startValue, runs, j + 1)))
  {
    RunEnds(payload, h, runs, j);
    if runs[j] > INT_LIMIT {
      assert ReadLength(runs[j]) != runs[j];
    } else {
      var pairs := PairsFrom(h.startValue, runs, j);
      assert pairs[1..] == PairsFrom(h.startValue, runs, j + 1);
      if j + 1 < |runs| {
        StepOntoNext(payload, h, runs, j);
      } else {
        StepPastLast(payload, h, runs);
      }
    }
  }

  lemma {:induction false} YieldsFrom(payload: seq<byte>, h: Header, runs: seq<nat>, j: nat)
    requires Encodes(payload, h, runs) && j < |runs|
    ensures Yields(payload, h, OnRun(payload, h, runs, j), PairsFrom(h.startValue, runs, j)) <==> ShortFrom(runs, j)
    decreases |runs| - j
  {
    YieldsStep(payload, h, runs, j);
    if j + 1 < |runs| {
      YieldsFrom(payload, h, runs, j + 1);
    }
  }

  /** Decoding the run-length encoding of a mask gives its runs exactly when none is longer than
      `2^31`: a longer one is sign-extended. */
  lemma RunLengthRoundTrip(mask: seq<bool>)
    requires 1 <= |mask| < MAX_SIZE
    ensures DecodesToRuns(EncodedRunLength(mask), PairsFrom(mask[0], Runs(mask), 0))
            <==> Longest(Runs(mask)) <= INT_LIMIT
  {
    var payload, h, runs := EncodedRunLength(mask), RunLengthHeader(mask), Runs(mask);
    EncodedHolds(mask);
    StepOntoFirst(payload, h, runs);
    YieldsFrom(payload, h, runs, 0);
    var l := LongestIsRun(runs);
    forall k | 0 <= k < |runs| ensures runs[k] <= runs[l] { LongestBounds(runs, k); }
  }

  // ---- value by value

  /** `bits` are the alternating runs of the payload, written out. */
  ghost predicate Spells(bits: seq<bool>, h: Header, runs: seq<nat>) {
    && |bits| == h.numBits
    && forall j: nat, i: nat :: j < |runs| && Sum(runs[..j]) <= i < Sum(runs[..j + 1]) && i < |bits| ==>
         bits[i] == Sign(h.startValue, j)
  }

  /** The bit iterator at value `i`, inside run `j`. */
  function OnBit(payload: seq<byte>, h: Header, runs: seq<nat>, j: nat, i: nat): BitState
    requires j < |runs| && i >= Sum(runs[..j])
  {
    BitState(i, Sign(h.startValue, j), InRun(OnRun(payload, h, runs, j), i - Sum(runs[..j])))
  }

  /** Runs `j`, ..., up to the last but one, are at most `2^31` long. */
  predicate ShortButLast(runs: seq<nat>, j: nat) {
    forall k :: j <= k < |runs| - 1 ==> runs[k] <= INT_LIMIT
  }

  lemma ReadLengthLong(r: nat)
    requires 1 <= r < MAX_SIZE
    ensures r <= ReadLength(r)
    ensures r > INT_LIMIT ==> ReadLength(r) > MAX_SIZE
  {
  }

  /** Inside a run the iterator moves to the next value of the run. */
  lemma BitStepInside(payload: seq<byte>, h: Header, runs: seq<nat>, j: nat, i: nat)
    requires Encodes(payload, h, runs) && j < |runs| && Sum(runs[..j]) <= i && i + 1 < Sum(runs[..j + 1])
    ensures var s := OnBit(payload, h, runs, j, i);
            CanAdvance(payload, h, s) && NextBit(payload, h, s) == OnBit(payload, h, runs, j, i + 1)
  {
    RunEnds(payload, h, runs, j);
    ReadLengthLong(runs[j]);
  }

  /** At the end of a run that is not the last, the iterator moves to the next run exactly when the
      run was read with its true length; otherwise it repeats the old value. */
  lemma BitStepAcross(payload: seq<byte>, h: Header, runs: seq<nat>, j: nat, i: nat)
    requires Encodes(payload, h, runs) && j + 1 < |runs| && i + 1 == Sum(runs[..j + 1]) && i >= Sum(runs[..j])
    ensures var s := OnBit(payload, h, runs, j, i);
            && CanAdvance(payload, h, s)
            && if runs[j] <= INT_LIMIT then NextBit(payload, h, s) == OnBit(payload, h, runs, j + 1, i + 1)
               else NextBit(payload, h, s).val == Sign(h.startValue, j) && NextBit(payload, h, s).index == i + 1
  {
    RunEnds(payload, h, runs, j);
    ReadLengthLong(runs[j]);
    if runs[j] <= INT_LIMIT {
      StepOntoNext(payload, h, runs, j);
    }
  }

  /** One step of the iteration over values. */
  lemma YieldsBitsStep(payload: seq<byte>, h: Header, s: BitState, bits: seq<bool>, i: nat)
    requires i < |bits| == h.numBits && s.index == i && s.val == bits[i] && CanAdvance(payload, h, s)
    ensures YieldsBits(payload, h, s, bits[i..]) <==> YieldsBits(payload, h, NextBit(payload, h, s), bits[i + 1..])
  {
    assert bits[i..][1..] == bits[i + 1..];
  }

  lemma {:induction false} YieldsBitsFrom(payload: seq<byte>, h: Header, runs: seq<nat>, bits: seq<bool>, j: nat, i: nat)
    requires Encodes(payload, h, runs) && Spells(bits, h, runs)
    requires j < |runs| && Sum(runs[..j]) <= i < Sum(runs[..j + 1])
    ensures i < |bits|
    ensures YieldsBits(payload, h, OnBit(payload, h, runs, j, i), bits[i..]) <==> ShortButLast(runs, j)
    decreases h.numBits - i
  {
    RunEnds(payload, h, runs, j);
    var s := OnBit(payload, h, runs, j, i);
    if i + 1 < Sum(runs[..j + 1]) {
      BitStepInside(payload, h, runs, j, i);
      YieldsBitsStep(payload, h, s, bits, i);
      YieldsBitsFrom(payload, h, runs, bits, j, i + 1);
    } else if j + 1 < |runs| {
      BitStepAcross(payload, h, runs, j, i);
      YieldsBitsStep(payload, h, s, bits, i);
      RunEnds(payload, h, runs, j + 1);
      if runs[j] <= INT_LIMIT {
        YieldsBitsFrom(payload, h, runs, bits, j + 1, i + 1);
      } else {
        SignFlips(h.startValue, j);
        assert bits[i + 1..][0] == Sign(h.startValue, j + 1);
      }
    } else {
      YieldsBitsStep(payload, h, s, bits, i);
    }
  }

  lemma MaskSpelled(mask: seq<bool>)
    requires 1 <= |mask| < MAX_SIZE
    ensures Spells(mask, RunLengthHeader(mask), Runs(mask))
  {
    forall j: nat, i: nat | j < |Runs(mask)| && Sum(Runs(mask)[..j]) <= i < Sum(Runs(mask)[..j + 1]) && i < |mask|
      ensures mask[i] == Sign(mask[0], j)
    {
      MaskInRun(mask, j, i);
    }
  }

  lemma DecodesFromFirstRun(payload: seq<byte>, h: Header, bits: seq<bool>)
    requires DecodeHeader(payload) == Ok(h) && h.format.RunLength? && h.numBits == |bits| >= 1
    requires CanStep(payload, h, InitialRun(h))
    ensures var run := NextRun(payload, h, InitialRun(h));
            DecodesToBits(payload, bits) <==> YieldsBits(payload, h, BitState(0, run.value, InRun(run, 0)), bits)
  {
  }

  /** Reading the run-length encoding of a mask value by value gives the mask exactly when every run
      but the last is at most `2^31` long: the values of the last run end with the mask, whatever
      length was read. */
  lemma RunLengthBitsRoundTrip(mask: seq<bool>)
    requires 1 <= |mask| < MAX_SIZE
    ensures DecodesToBits(EncodedRunLength(mask), mask) <==> ShortButLast(Runs(mask), 0)
  {
    var payload, h, runs := EncodedRunLength(mask), RunLengthHeader(mask), Runs(mask);
    EncodedHolds(mask);
    StepOntoFirst(payload, h, runs);
    DecodesFromFirstRun(payload, h, mask);
    assert runs[..0] == [] && mask[0..] == mask;
    MaskSpelled(mask);
    RunEnds(payload, h, runs, 0);
    YieldsBitsFrom(payload, h, runs, mask, 0, 0);
  }

  lemma EncodedBitMaskBit(mask: seq<bool>, i: nat)
    requires i < |mask| < MAX_SIZE
    ensures MaskBit(EncodedBitMask(mask), i) == mask[i]
  {
    ByteOfBit(mask, i / 8, i % 8);
  }

  lemma {:induction false} BitMaskYieldsFrom(mask: seq<bool>, i: nat)
    requires i < |mask| < MAX_SIZE
    ensures YieldsBits(EncodedBitMask(mask), BitMaskHeader(mask), BitState(i, mask[i], NoRun), mask[i..])
    decreases |mask| - i
  {
    var s := BitState(i, mask[i], NoRun);
    YieldsBitsStep(EncodedBitMask(mask), BitMaskHeader(mask), s, mask, i);
    if i + 1 < |mask| {
      EncodedBitMaskBit(mask, i + 1);
      BitMaskYieldsFrom(mask, i + 1);
    }
  }

  /** Reading the bit-mask encoding value by value always gives the mask. */
  lemma BitMaskRoundTrip(mask: seq<bool>)
    requires 1 <= |mask| < MAX_SIZE
    ensures DecodesToBits(EncodedBitMask(mask), mask)
  {
    HeaderBytesDecode(BitMaskHeader(mask), PackLow(mask));
    EncodedBitMaskBit(mask, 0);
    BitMaskYieldsFrom(mask, 0);
    assert mask[0..] == mask;
  }

  /** `encodeMask` followed by value-by-value decoding is the identity, unless run length is chosen
      and a run other than the last is longer than `2^31`. */
  lemma EncodeMaskRoundTrip(mask: seq<bool>)
    requires 1 <= |mask| < MAX_SIZE
    ensures DecodesToBits(EncodedMask(mask), mask) <==>
            |EncodedBitMask(mask)| < |EncodedRunLength(mask)| || ShortButLast(Runs(mask), 0)
  {
    BitMaskRoundTrip(mask);
    RunLengthBitsRoundTrip(mask);
  }

  /** Every mask of at most `2^31` values survives either way of decoding. */
  lemma ShortMaskRoundTrip(mask: seq<bool>)
    requires 1 <= |mask| <= INT_LIMIT
    ensures DecodesToRuns(EncodedRunLength(mask), PairsFrom(mask[0], Runs(mask), 0))
    ensures DecodesToBits(EncodedRunLength(mask), mask) && DecodesToBits(EncodedMask(mask), mask)
  {
    RunsSum(mask);
    LongestAtMostSum(Runs(mask));
    RunLengthRoundTrip(mask);
    forall k | 0 <= k < |Runs(mask)| ensures Runs(mask)[k] <= INT_LIMIT { LongestBounds(Runs(mask), k); }
    RunLengthBitsRoundTrip(mask);
    EncodeMaskRoundTrip(mask);
  }

  /** A mask of `2^31 + 1` equal values does not come back as its single run. */
  lemma LongRunIsMisread(v: bool)
    ensures var mask := Repeat(v, INT_LIMIT + 1);
            && Runs(mask) == [INT_LIMIT + 1]
            && !DecodesToRuns(EncodedRunLength(mask), [(v, INT_LIMIT + 1)])
            && DecodesToBits(EncodedRunLength(mask), mask)
  {
    var mask := Repeat(v, INT_LIMIT + 1);
    RunsOfOne(v, INT_LIMIT + 1);
    assert Longest([INT_LIMIT + 1]) == INT_LIMIT + 1;
    assert PairsFrom(v, [INT_LIMIT + 1], 0) == [(v, INT_LIMIT + 1)];
    RunLengthRoundTrip(mask);
    RunLengthBitsRoundTrip(mask);
  }

  lemma TwoRuns(v: bool, n: nat)
    requires n >= 1
    ensures Runs(Repeat(v, n) + [!v]) == [n, 1]
  {
    hide Runs;
    RunsOfOne(v, n);
    RunsSnoc(Repeat(v, n), !v);
  }

  /** Two runs take at most eight bytes, which is less than the bits take. */
  lemma TwoRunsAreShorter(mask: seq<bool>)
    requires 64 <= |mask| < MAX_SIZE && |Runs(mask)| == 2
    ensures EncodedMask(mask) == EncodedRunLength(mask)
  {
    hide Runs, Width;
    RunLengthSize(mask);
    WidthFits(mask);
    assert Times(2, Width(mask)) <= 64;
  }

  /** A run of more than `2^31` values and one other value: run length is chosen, and the mask does not
      come back. */
  lemma LongRunHidesTheNext(v: bool, n: nat)
    requires INT_LIMIT < n < MAX_SIZE - 1
    ensures var mask := Repeat(v, n) + [!v];
            EncodedMask(mask) == EncodedRunLength(mask) && !DecodesToBits(EncodedMask(mask), mask)
  {
    hide Runs, DecodesToBits, EncodedMask, EncodedRunLength;
    var mask := Repeat(v, n) + [!v];
    TwoRuns(v, n);
    TwoRunsAreShorter(mask);
    RunLengthBitsRoundTrip(mask);
    assert Runs(mask)[0] > INT_LIMIT;
  }
}
