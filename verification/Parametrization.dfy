/** The global parametrization: a map whose keys are written once. */
module Parametrization {
  import opened Wrappers
  import opened Sets
  import opened Arithmetic
  import opened Bits

  // ---- values

  /** A floating-point number, as far as comparison sees it. */
  datatype Number = Finite(r: real) | NegativeZero | Infinity(negative: bool) | NaN

  datatype Value =
    | Null
    | Bool(b: bool)
    | Int(i: int)
    | Text(s: string)
    | Real(single: bool, x: Number)
    | Bytes(bytes: seq<byte>)
    | Bools(bs: seq<bool>)
    | Ints(ints: seq<int>)
    | Texts(texts: seq<string>)
    | Reals(single: bool, xs: seq<Number>)

  predicate NumberEq(a: Number, b: Number) {
    match (a, b)
    case (NaN, _) => false
    case (_, NaN) => false
    case (Infinity(m), Infinity(n)) => m == n
    case (Infinity(_), _) => false
    case (_, Infinity(_)) => false
    case (NegativeZero, NegativeZero) => true
    case (NegativeZero, Finite(r)) => r == 0.0
    case (Finite(r), NegativeZero) => r == 0.0
    case (Finite(r), Finite(s)) => r == s
  }

  /** The comparison `==` of the source. */
  predicate ValueEq(a: Value, b: Value) {
    match (a, b)
    case (Real(s, x), Real(t, y)) => s == t && NumberEq(x, y)
    case (Reals(s, xs), Reals(t, ys)) => s == t && |xs| == |ys| && forall k :: 0 <= k < |xs| ==> NumberEq(xs[k], ys[k])
    case (Real(_, _), _) => false
    case (Reals(_, _), _) => false
    case _ => a == b
  }

  /** A value equals itself unless it has a NaN in it. */
  predicate HasNaN(v: Value) {
    (v.Real? && v.x.NaN?) || (v.Reals? && NaN in v.xs)
  }

  lemma EqualsItself(v: Value)
    ensures ValueEq(v, v) <==> !HasNaN(v)
  {
    if v.Reals? && NaN in v.xs {
      var k :| 0 <= k < |v.xs| && v.xs[k] == NaN;
      assert !NumberEq(v.xs[k], v.xs[k]);
    }
    if v.Reals? && NaN !in v.xs {
      forall k | 0 <= k < |v.xs| ensures NumberEq(v.xs[k], v.xs[k]) { assert v.xs[k] in v.xs; }
    }
  }

  /** Two finite numbers that are equal, two infinities of the same sign, or two zeros of any sign. */
  predicate SameNumber(a: Number, b: Number) {
    || (a.Finite? && b.Finite? && a.r == b.r)
    || (a.Infinity? && b.Infinity? && a.negative == b.negative)
    || ((a.NegativeZero? || a == Finite(0.0)) && (b.NegativeZero? || b == Finite(0.0)))
  }

  /** Identical values, or floating-point values of the same precision and, for lists, of the same
      length, whose numbers are the same. */
  predicate Same(a: Value, b: Value) {
    || (!a.Real? && !a.Reals? && a == b)
    || (a.Real? && b.Real? && a.single == b.single && SameNumber(a.x, b.x))
    || (a.Reals? && b.Reals? && a.single == b.single && |a.xs| == |b.xs|
        && forall k :: 0 <= k < |a.xs| ==> SameNumber(a.xs[k], b.xs[k]))
  }

  lemma NumberEqIsSame(a: Number, b: Number)
    ensures NumberEq(a, b) <==> SameNumber(a, b)
  {
  }

  lemma EqIsSame(a: Value, b: Value)
    ensures ValueEq(a, b) <==> Same(a, b)
  {
    hide NumberEq, SameNumber;
    if a.Real? && b.Real? {
      NumberEqIsSame(a.x, b.x);
    }
    if a.Reals? && b.Reals? && |a.xs| == |b.xs| {
      forall k | 0 <= k < |a.xs| ensures NumberEq(a.xs[k], b.xs[k]) <==> SameNumber(a.xs[k], b.xs[k]) {
        NumberEqIsSame(a.xs[k], b.xs[k]);
      }
    }
  }

  lemma EqSymmetric(a: Value, b: Value)
    ensures ValueEq(a, b) <==> ValueEq(b, a)
  {
  }

  lemma NumberEqTransitive(a: Number, b: Number, c: Number)
    requires NumberEq(a, b) && NumberEq(b, c)
    ensures NumberEq(a, c)
  {
  }

  lemma EqTransitive(a: Value, b: Value, c: Value)
    requires ValueEq(a, b) && ValueEq(b, c)
    ensures ValueEq(a, c)
  {
    if a.Reals? {
      forall k | 0 <= k < |a.xs| ensures NumberEq(a.xs[k], c.xs[k]) {
        NumberEqTransitive(a.xs[k], b.xs[k], c.xs[k]);
      }
    }
  }

  // ---- writes

  type Key = string

  type Data = map<Key, Value>

  /** One key and the value it is to have. */
  type Entry = (Key, Value)

  predicate Conflicts(data: Data, e: Entry) {
    e.0 in data && !ValueEq(data[e.0], e.1)
  }

  /** A key that is there keeps its value. */
  function Write(data: Data, e: Entry): Data {
    if e.0 in data then data else data[e.0 := e.1]
  }

  /** The entries of an update, up to the first conflict, in the order in which they are visited. */
  function WriteAll(data: Data, es: seq<Entry>): Data
    decreases |es|
  {
    if es == [] || Conflicts(data, es[0]) then data else WriteAll(Write(data, es[0]), es[1..])
  }

  predicate Succeeds(data: Data, es: seq<Entry>)
    decreases |es|
  {
    es == [] || (!Conflicts(data, es[0]) && Succeeds(Write(data, es[0]), es[1..]))
  }

  // ---- what succeeds

  /** Any two entries with the same key have equal values. */
  predicate Compatible(es: seq<Entry>) {
    forall i, j :: 0 <= i < j < |es| && es[i].0 == es[j].0 ==> ValueEq(es[i].1, es[j].1)
  }

  predicate CompatibleWith(data: Data, es: seq<Entry>) {
    forall i :: 0 <= i < |es| ==> !Conflicts(data, es[i])
  }

  predicate Names(es: seq<Entry>, k: Key) {
    exists i :: 0 <= i < |es| && es[i].0 == k
  }

  /** No entry before has the same key. */
  predicate IsFirst(es: seq<Entry>, i: nat)
    requires i < |es|
  {
    forall j :: 0 <= j < i ==> es[j].0 != es[i].0
  }

  /** `r` has the keys of `data` and of the entries; each has the value it had in `data`, or otherwise
      the value of its first entry. */
  ghost predicate FirstWins(data: Data, es: seq<Entry>, r: Data) {
    && (forall k :: k in r <==> k in data || Names(es, k))
    && (forall k :: k in data ==> k in r && r[k] == data[k])
    && (forall i :: 0 <= i < |es| && es[i].0 !in data && IsFirst(es, i) ==> es[i].0 in r && r[es[i].0] == es[i].1)
  }

  /** All updates succeed exactly when entries of the same key are equal, among themselves and with
      what is stored; then every key has the value of its first entry, unless it had one before. */
  lemma {:induction false} SucceedsWhenCompatible(data: Data, es: seq<Entry>)
    ensures Succeeds(data, es) <==> CompatibleWith(data, es) && Compatible(es)
    ensures Succeeds(data, es) ==> FirstWins(data, es, WriteAll(data, es))
    decreases |es|
  {
    if es != [] {
      var e, rest, data' := es[0], es[1..], Write(data, es[0]);
      SucceedsWhenCompatible(data', rest);
      hide ValueEq;
      CompatibleStep(data, e, rest);
      assert es == [e] + rest;
      if Succeeds(data, es) {
        FirstValues(data, e, rest, WriteAll(data, es));
      }
    }
  }

  /** The entry agrees with all others of its key. */
  predicate AgreesWith(e: Entry, rest: seq<Entry>) {
    forall i :: 0 <= i < |rest| && rest[i].0 == e.0 ==> ValueEq(e.1, rest[i].1)
  }

  lemma CompatibleCons(e: Entry, rest: seq<Entry>)
    ensures Compatible([e] + rest) <==> AgreesWith(e, rest) && Compatible(rest)
  {
    hide ValueEq;
    var es := [e] + rest;
    forall i | 0 <= i < |rest| ensures es[i + 1] == rest[i] { }
    if Compatible(es) {
      forall i | 0 <= i < |rest| && rest[i].0 == e.0 ensures ValueEq(e.1, rest[i].1) {
        assert es[0] == e && es[i + 1] == rest[i];
      }
      forall i, j | 0 <= i < j < |rest| && rest[i].0 == rest[j].0 ensures ValueEq(rest[i].1, rest[j].1) {
        assert es[i + 1] == rest[i] && es[j + 1] == rest[j];
      }
    }
    if AgreesWith(e, rest) && Compatible(rest) {
      forall i, j | 0 <= i < j < |es| && es[i].0 == es[j].0 ensures ValueEq(es[i].1, es[j].1) {
        assert es[j] == rest[j - 1] && (i > 0 ==> es[i] == rest[i - 1]);
      }
    }
  }

  lemma CompatibleWithCons(data: Data, e: Entry, rest: seq<Entry>)
    ensures CompatibleWith(data, [e] + rest) <==> !Conflicts(data, e) && CompatibleWith(data, rest)
  {
    hide Conflicts;
    var es := [e] + rest;
    if CompatibleWith(data, es) {
      assert !Conflicts(data, es[0]);
      forall i | 0 <= i < |rest| ensures !Conflicts(data, rest[i]) {
        assert es[i + 1] == rest[i];
      }
    }
  }

  lemma WrittenCompatible(data: Data, e: Entry, rest: seq<Entry>)
    requires !Conflicts(data, e)
    ensures CompatibleWith(data, rest) && AgreesWith(e, rest) <==>
            CompatibleWith(Write(data, e), rest) && AgreesWith(e, rest)
    ensures CompatibleWith(Write(data, e), rest) ==> AgreesWith(e, rest)
  {
    hide ValueEq;
    if CompatibleWith(Write(data, e), rest) {
      forall i | 0 <= i < |rest| && rest[i].0 == e.0 ensures ValueEq(e.1, rest[i].1) {
        assert !Conflicts(Write(data, e), rest[i]);
        if e.0 in data {
          EqSymmetric(data[e.0], e.1);
          EqTransitive(e.1, data[e.0], rest[i].1);
        }
      }
      forall i | 0 <= i < |rest| ensures !Conflicts(data, rest[i]) {
        assert !Conflicts(Write(data, e), rest[i]);
      }
    }
  }

  lemma CompatibleStep(data: Data, e: Entry, rest: seq<Entry>)
    ensures CompatibleWith(data, [e] + rest) && Compatible([e] + rest) <==>
            !Conflicts(data, e) && CompatibleWith(Write(data, e), rest) && Compatible(rest)
  {
    hide Conflicts, Compatible, CompatibleWith, AgreesWith, Write;
    CompatibleCons(e, rest);
    CompatibleWithCons(data, e, rest);
    if !Conflicts(data, e) {
      WrittenCompatible(data, e, rest);
    }
  }

  lemma NamesStep(e: Entry, rest: seq<Entry>, k: Key)
    ensures Names([e] + rest, k) <==> e.0 == k || Names(rest, k)
  {
    var es := [e] + rest;
    if i :| 0 <= i < |rest| && rest[i].0 == k {
      assert es[i + 1].0 == k;
    }
    if e.0 == k {
      assert es[0].0 == k;
    }
  }

  lemma FirstStep(e: Entry, rest: seq<Entry>, i: nat)
    requires i < |rest| && IsFirst([e] + rest, i + 1)
    ensures rest[i].0 != e.0 && IsFirst(rest, i)
  {
    var es := [e] + rest;
    assert es[0] == e && es[i + 1] == rest[i];
    forall j | 0 <= j < i ensures rest[j].0 != rest[i].0 {
      assert es[j + 1] == rest[j];
    }
  }

  lemma FirstValues(data: Data, e: Entry, rest: seq<Entry>, r: Data)
    requires FirstWins(Write(data, e), rest, r)
    ensures FirstWins(data, [e] + rest, r)
  {
    hide Names, IsFirst;
    var es := [e] + rest;
    forall k ensures k in r <==> k in data || Names(es, k) {
      NamesStep(e, rest, k);
    }
    forall i: nat | i < |es| && es[i].0 !in data && IsFirst(es, i) ensures es[i].0 in r && r[es[i].0] == es[i].1 {
      if i > 0 {
        FirstStep(e, rest, i - 1);
      }
    }
  }

  // ---- written once

  lemma {:induction false} WriteAllKeeps(data: Data, es: seq<Entry>)
    ensures data.Keys <= WriteAll(data, es).Keys && forall k :: k in data ==> WriteAll(data, es)[k] == data[k]
    decreases |es|
  {
    if es != [] && !Conflicts(data, es[0]) {
      WriteAllKeeps(Write(data, es[0]), es[1..]);
    }
  }

  /** The data after a run of updates, each of which either succeeds or stops at its first conflict. */
  function Run(updates: seq<seq<Entry>>): Data {
    if updates == [] then map[] else WriteAll(Run(updates[..|updates| - 1]), updates[|updates| - 1])
  }

  /** Whatever updates come later, and whether or not they succeed, a stored key keeps its value. */
  lemma {:induction false} StoredOnce(updates: seq<seq<Entry>>, n: nat, k: Key)
    requires n <= |updates| && k in Run(updates[..n])
    ensures k in Run(updates) && Run(updates)[k] == Run(updates[..n])[k]
    decreases |updates|
  {
    if n < |updates| {
      var init := updates[..|updates| - 1];
      assert init[..n] == updates[..n];
      StoredOnce(init, n, k);
      WriteAllKeeps(Run(init), updates[|updates| - 1]);
    } else {
      assert updates[..n] == updates;
    }
  }

  // ---- the order of updates

  /** Each of the numbers below `n` once. */
  predicate IsOrder(order: seq<nat>, n: nat) {
    && |order| == n
    && (forall i :: 0 <= i < n ==> order[i] < n)
    && (forall i, j :: 0 <= i < j < n ==> order[i] != order[j])
  }

  function Reordered(es: seq<Entry>, order: seq<nat>): (r: seq<Entry>)
    requires IsOrder(order, |es|)
    ensures |r| == |es| && forall i :: 0 <= i < |es| ==> r[i] == es[order[i]]
  {
    seq(|es|, i requires 0 <= i < |es| => es[order[i]])
  }

  lemma {:induction false} DistinctSize(order: seq<nat>)
    requires forall i, j :: 0 <= i < j < |order| ==> order[i] != order[j]
    ensures |set x: int | x in order| == |order|
    decreases |order|
  {
    if order != [] {
      var init, last := order[..|order| - 1], order[|order| - 1];
      DistinctSize(init);
      assert order == init + [last] && last !in init;
      assert (set x: int | x in order) == (set x: int | x in init) + {last as int};
    }
  }

  lemma OrderReaches(order: seq<nat>, n: nat, x: nat) returns (i: nat)
    requires IsOrder(order, n) && x < n
    ensures i < n && order[i] == x
  {
    DistinctSize(order);
    var members := set x: int | x in order;
    BoundedCardinality(members, n);
    assert x in members;
    i :| 0 <= i < n && order[i] == x;
  }

  lemma CompatibleInAnyOrder(es: seq<Entry>, order: seq<nat>)
    requires IsOrder(order, |es|)
    ensures Compatible(Reordered(es, order)) <==> Compatible(es)
  {
    hide ValueEq;
    var rs := Reordered(es, order);
    if Compatible(es) {
      forall i, j | 0 <= i < j < |rs| && rs[i].0 == rs[j].0 ensures ValueEq(rs[i].1, rs[j].1) {
        EqSymmetric(rs[i].1, rs[j].1);
        assert order[i] != order[j];
      }
    }
    if Compatible(rs) {
      forall i, j | 0 <= i < j < |es| && es[i].0 == es[j].0 ensures ValueEq(es[i].1, es[j].1) {
        var k := OrderReaches(order, |es|, i);
        var l := OrderReaches(order, |es|, j);
        EqSymmetric(rs[k].1, rs[l].1);
        assert k != l;
      }
    }
  }

  predicate SameUpToEq(a: Data, b: Data) {
    a.Keys == b.Keys && forall k :: k in a ==> ValueEq(a[k], b[k]) || a[k] == b[k]
  }

  lemma {:induction false} FirstWith(es: seq<Entry>, k: Key, n: nat) returns (i: nat)
    requires n < |es| && es[n].0 == k
    ensures i <= n && es[i].0 == k && forall j :: 0 <= j < i ==> es[j].0 != k
    decreases n
  {
    if j :| 0 <= j < n && es[j].0 == k {
      i := FirstWith(es, k, j);
    } else {
      i := n;
    }
  }

  lemma SameNames(es: seq<Entry>, order: seq<nat>, k: Key)
    requires IsOrder(order, |es|)
    ensures Names(es, k) <==> Names(Reordered(es, order), k)
  {
    var rs := Reordered(es, order);
    if i: nat :| i < |es| && es[i].0 == k {
      var j := OrderReaches(order, |es|, i);
      assert rs[j].0 == k;
    }
    if j: nat :| j < |rs| && rs[j].0 == k {
      assert es[order[j]].0 == k;
    }
  }

  lemma NoneStored(es: seq<Entry>)
    ensures CompatibleWith(map[], es)
  {
  }

  /** Any two orders of the same updates either both succeed, with equal values under the same keys,
      or both raise. */
  lemma OrderIrrelevant(es: seq<Entry>, order: seq<nat>)
    requires IsOrder(order, |es|)
    ensures Succeeds(map[], Reordered(es, order)) <==> Succeeds(map[], es)
    ensures Succeeds(map[], es) ==> SameUpToEq(WriteAll(map[], es), WriteAll(map[], Reordered(es, order)))
  {
    hide ValueEq, WriteAll, Succeeds, Compatible, CompatibleWith, Names, IsFirst;
    var rs := Reordered(es, order);
    NoneStored(es);
    NoneStored(rs);
    SucceedsWhenCompatible(map[], es);
    SucceedsWhenCompatible(map[], rs);
    CompatibleInAnyOrder(es, order);
    if Succeeds(map[], es) {
      var a, b := WriteAll(map[], es), WriteAll(map[], rs);
      forall k ensures k in a <==> k in b {
        SameNames(es, order, k);
      }
      hide FirstWins;
      forall k | k in a ensures ValueEq(a[k], b[k]) || a[k] == b[k] {
        SameValue(es, order, k);
      }
    }
  }

  lemma StoredFrom(es: seq<Entry>, k: Key) returns (i: nat)
    requires Succeeds(map[], es) && k in WriteAll(map[], es)
    ensures i < |es| && es[i] == (k, WriteAll(map[], es)[k])
  {
    hide WriteAll, Succeeds, Compatible, CompatibleWith;
    SucceedsWhenCompatible(map[], es);
    var n :| 0 <= n < |es| && es[n].0 == k;
    i := FirstWith(es, k, n);
  }

  lemma CompatiblePair(es: seq<Entry>, i: nat, j: nat)
    requires Compatible(es) && i < |es| && j < |es| && es[i].0 == es[j].0
    ensures ValueEq(es[i].1, es[j].1) || es[i].1 == es[j].1
  {
    hide ValueEq;
    EqSymmetric(es[i].1, es[j].1);
  }

  lemma SameValue(es: seq<Entry>, order: seq<nat>, k: Key)
    requires IsOrder(order, |es|) && Compatible(es) && Succeeds(map[], es) && Succeeds(map[], Reordered(es, order))
    requires k in WriteAll(map[], es) && k in WriteAll(map[], Reordered(es, order))
    ensures var a, b := WriteAll(map[], es)[k], WriteAll(map[], Reordered(es, order))[k]; ValueEq(a, b) || a == b
  {
    hide ValueEq, WriteAll, Succeeds, Compatible, Reordered;
    var i := StoredFrom(es, k);
    var j := StoredFrom(Reordered(es, order), k);
    assert es[order[j]] == Reordered(es, order)[j];
    CompatiblePair(es, i, order[j]);
  }

  /** A key that is given two values: the second raises exactly if it is another value. */
  lemma TwoValues(k: Key, v: Value, w: Value)
    ensures Succeeds(map[], [(k, v), (k, w)]) <==> Same(v, w)
  {
    EqIsSame(v, w);
    hide ValueEq, Same;
    var es := [(k, v), (k, w)];
    var stored := Write(map[], (k, v));
    assert es[0] == (k, v) && es[1..] == [(k, w)] && stored[k] == v;
    OneWrite(stored, (k, w));
    assert Succeeds(map[], es) <==> Succeeds(stored, es[1..]);
  }

  /** Sending a key twice with the same value, as the documentation allows, raises exactly when the
      value has a NaN in it. */
  lemma SentTwice(k: Key, v: Value)
    ensures Succeeds(map[], [(k, v), (k, v)]) <==> !HasNaN(v)
  {
    EqualsItself(v);
    hide ValueEq;
    var es := [(k, v), (k, v)];
    SucceedsWhenCompatible(map[], es);
    assert es[0].0 == es[1].0;
  }

  // ---- the class

  const PAYLOAD_KEY := "payloadKey"
  const PAYLOAD_ELEMENT_TYPE := "payloadElementType"

  datatype ElementType = Byte | Int32 | Int64 | Real32 | Real64

  function DecodeElementType(name: string): Option<ElementType> {
    if name == "byte" then Some(Byte)
    else if name == "int64" then Some(Int64)
    else if name == "int32" then Some(Int32)
    else if name == "real64" then Some(Real64)
    else if name == "real32" then Some(Real32)
    else None
  }

  /** What a parametrization message carries; the metadata in the order in which they are visited. */
  datatype Update = Update(md: seq<Entry>, payload: seq<byte>)

  // How the bytes of a payload are read, on a little-endian machine with IEEE 754 numbers.

  function Unsigned(bytes: seq<byte>): nat {
    if bytes == [] then 0 else bytes[0] + 256 * Unsigned(bytes[1..])
  }

  function Signed(bytes: seq<byte>): int
    requires bytes != []
  {
    var u := Unsigned(bytes);
    if u < Pow2(8 * |bytes| - 1) then u else u - Pow2(8 * |bytes|)
  }

  /** `m` times two to the power of `e`. */
  function Scaled(m: nat, e: int): real {
    if e >= 0 then m as real * Pow2(e) as real else m as real / Pow2(-e) as real
  }

  /** The number with this sign, biased exponent and fraction. */
  function NumberFrom(negative: bool, exponent: nat, fraction: nat, exponentBits: nat, fractionBits: nat): Number
    requires exponentBits >= 1
  {
    var bias := Pow2(exponentBits - 1) - 1;
    if exponent == Pow2(exponentBits) - 1 then if fraction == 0 then Infinity(negative) else NaN
    else if exponent == 0 && fraction == 0 then if negative then NegativeZero else Finite(0.0)
    else
      var magnitude := if exponent == 0 then Scaled(fraction, 1 - bias - fractionBits)
                       else Scaled(Pow2(fractionBits) + fraction, exponent - bias - fractionBits);
      Finite(if negative then -magnitude else magnitude)
  }

  /** A binary number with this many bits for exponent and fraction. */
  function Float(bytes: seq<byte>, exponentBits: nat, fractionBits: nat): Number
    requires exponentBits >= 1
  {
    var u := Unsigned(bytes);
    NumberFrom((u / Pow2(exponentBits + fractionBits)) % 2 == 1, (u / Pow2(fractionBits)) % Pow2(exponentBits),
               u % Pow2(fractionBits), exponentBits, fractionBits)
  }

  /** Pieces of `size` bytes; what remains at the end is dropped. */
  function Pieces(payload: seq<byte>, size: nat): (ps: seq<seq<byte>>)
    requires size >= 1
    ensures forall k :: 0 <= k < |ps| ==> |ps[k]| == size
    decreases |payload|
  {
    if |payload| < size then [] else [payload[..size]] + Pieces(payload[size..], size)
  }

  /** The list that is stored; integers of 32 bits are stored as 64-bit integers. */
  function ElementsOf(t: ElementType, payload: seq<byte>): Value {
    match t
    case Byte => Bytes(payload)
    case Int32 => var ps := Pieces(payload, 4); Ints(seq(|ps|, k requires 0 <= k < |ps| => Signed(ps[k])))
    case Int64 => var ps := Pieces(payload, 8); Ints(seq(|ps|, k requires 0 <= k < |ps| => Signed(ps[k])))
    case Real32 => var ps := Pieces(payload, 4); Reals(true, seq(|ps|, k requires 0 <= k < |ps| => Float(ps[k], 8, 23)))
    case Real64 => var ps := Pieces(payload, 8); Reals(false, seq(|ps|, k requires 0 <= k < |ps| => Float(ps[k], 11, 52)))
  }

  // ---- what a payload reads as

  /** Byte number `k` is digit number `k` to the base 256. */
  lemma {:induction false} UnsignedDigit(bytes: seq<byte>, k: nat)
    requires k < |bytes|
    ensures Unsigned(bytes) / Pow2(8 * k) % 256 == bytes[k]
    decreases |bytes|
  {
    var rest := Unsigned(bytes[1..]);
    if k == 0 {
      assert Pow2(0) == 1;
    } else {
      UnsignedDigit(bytes[1..], k - 1);
      Pow2Add(8, 8 * (k - 1));
      Pow2Values();
      ShiftDown(bytes[0], rest, Pow2(8 * (k - 1)));
    }
  }

  lemma ShiftDown(low: byte, high: nat, p: nat)
    requires p >= 1
    ensures (low + 256 * high) / (256 * p) == high / p
  {
    var q, r := high / p, high % p;
    assert high == q * p + r;
    assert low + 256 * high == q * (256 * p) + (256 * r + low);
    DivUnique(low + 256 * high, 256 * p, q, 256 * r + low);
  }

  lemma {:induction false} UnsignedBound(bytes: seq<byte>)
    ensures Unsigned(bytes) < Pow2(8 * |bytes|)
    decreases |bytes|
  {
    if bytes != [] {
      UnsignedBound(bytes[1..]);
      Pow2Add(8, 8 * (|bytes| - 1));
      Pow2Values();
    } else {
      assert Pow2(0) == 1;
    }
  }

  /** Two's complement: the representative of the unsigned number that lies between the bounds. */
  lemma SignedIs(bytes: seq<byte>)
    requires bytes != []
    ensures 0 <= Signed(bytes) + Pow2(8 * |bytes| - 1) < Pow2(8 * |bytes|)
    ensures Signed(bytes) == Unsigned(bytes) || Signed(bytes) == Unsigned(bytes) - Pow2(8 * |bytes|)
  {
    UnsignedBound(bytes);
    Pow2Add(1, 8 * |bytes| - 1);
    assert Pow2(1) == 2;
  }

  /** Piece number `k` starts at byte `k * size`; an incomplete piece at the end is dropped. */
  lemma {:induction false} PieceAt(payload: seq<byte>, size: nat, k: nat)
    requires size >= 1
    ensures k < |Pieces(payload, size)| <==> (k + 1) * size <= |payload|
    ensures k < |Pieces(payload, size)| ==> Pieces(payload, size)[k] == payload[k * size..(k + 1) * size]
    decreases |payload|
  {
    assert (k + 1) * size == k * size + size && k * size >= 0;
    if |payload| >= size {
      var rest := payload[size..];
      if k > 0 {
        PieceAt(rest, size, k - 1);
        assert k * size == (k - 1) * size + size;
        if k < |Pieces(payload, size)| {
          assert rest[(k - 1) * size..k * size] == payload[k * size..(k + 1) * size];
        }
      }
    }
  }

  lemma Splits(u: nat, sign: nat, exponent: nat, fraction: nat, e: nat, f: nat)
    requires exponent < e && fraction < f && u == Times(Times(sign, e) + exponent, f) + fraction
    ensures u / Times(e, f) == sign && u / f % e == exponent && u % f == fraction
  {
    var high := Times(sign, e) + exponent;
    DivUnique(u, f, high, fraction);
    DivUnique(high, e, sign, exponent);
    Nested(u, e, f);
  }

  /** Sign, exponent and fraction stand in this order from the top of the little-endian number. */
  lemma FloatFrom(bytes: seq<byte>, sign: nat, exponent: nat, fraction: nat, exponentBits: nat, fractionBits: nat)
    requires sign <= 1 && exponent < Pow2(exponentBits) && fraction < Pow2(fractionBits) && exponentBits >= 1
    requires Unsigned(bytes) == Times(Times(sign, Pow2(exponentBits)) + exponent, Pow2(fractionBits)) + fraction
    ensures Float(bytes, exponentBits, fractionBits) ==
            NumberFrom(sign == 1, exponent, fraction, exponentBits, fractionBits)
  {
    hide NumberFrom, Pow2;
    Pow2Add(exponentBits, fractionBits);
    assert Times(Pow2(exponentBits), Pow2(fractionBits)) == Pow2(exponentBits + fractionBits);
    Splits(Unsigned(bytes), sign, exponent, fraction, Pow2(exponentBits), Pow2(fractionBits));
    hide Times, Unsigned;
  }

  lemma Nested(u: nat, e: nat, f: nat)
    requires e >= 1 && f >= 1
    ensures u / Times(e, f) == u / f / e
  {
    var high, low := u / f, u % f;
    var q, r := high / e, high % e;
    DivisionIs(u, f);
    DivisionIs(high, e);
    Regroup(q, e, r, f);
    hide Times;
    DivUnique(u, Times(e, f), q, Times(r, f) + low);
  }

  lemma DivisionIs(x: nat, n: nat)
    requires n >= 1
    ensures x == Times(x / n, n) + x % n
  {
  }

  lemma Regroup(q: nat, e: nat, r: nat, f: nat)
    requires r < e
    ensures Times(Times(q, e) + r, f) == Times(q, Times(e, f)) + Times(r, f)
    ensures Times(r, f) + f <= Times(e, f)
    ensures Times(q, Times(e, f)) == q * Times(e, f)
  {
    MulGap(f, r, e);
    assert (q * e + r) * f == q * e * f + r * f;
  }

  /** Samples with 8 and 23 bits: one, minus two and a half, the smallest number, what is not finite,
      and the zeros. */
  lemma SingleSamples()
    ensures NumberFrom(false, 127, 0, 8, 23) == Finite(1.0)
    ensures NumberFrom(true, 128, 0x20_0000, 8, 23) == Finite(-2.5)
    ensures NumberFrom(false, 0, 1, 8, 23) == Finite(1.0 / Pow2(149) as real)
    ensures NumberFrom(true, 255, 0, 8, 23) == Infinity(true) && NumberFrom(false, 255, 1, 8, 23) == NaN
    ensures NumberFrom(true, 0, 0, 8, 23) == NegativeZero && NumberFrom(false, 0, 0, 8, 23) == Finite(0.0)
  {
    hide Pow2;
    Pow2Values();
    Pow2Add(16, 7);
    Pow2Add(16, 6);
    Pow2Add(1, 7);
    SmallPowers();
  }

  lemma SmallPowers()
    ensures Pow2(1) == 2 && Pow2(6) == 64 && Pow2(7) == 128
  {
  }

  function Find(md: seq<Entry>, k: Key): (r: Option<Value>)
    ensures r.Some? ==> (k, r.value) in md
    ensures r.None? ==> forall v :: (k, v) !in md
  {
    if md == [] then None else if md[0].0 == k then Some(md[0].1) else Find(md[1..], k)
  }

  predicate Ignored(k: Key) {
    k == PAYLOAD_KEY || k == PAYLOAD_ELEMENT_TYPE
  }

  /** The entries that are stored as they come. */
  function Plain(md: seq<Entry>): seq<Entry> {
    if md == [] then [] else (if Ignored(md[0].0) then [] else [md[0]]) + Plain(md[1..])
  }

  /** The entry that the payload stands for, or nothing if the message is malformed. */
  function PayloadEntry(u: Update): Option<Entry> {
    var key, kind := Find(u.md, PAYLOAD_KEY), Find(u.md, PAYLOAD_ELEMENT_TYPE);
    if key.None? || u.payload == [] || kind.None? || !key.value.Text? || !kind.value.Text? then None
    else
      var t := DecodeElementType(kind.value.s);
      if t.None? then None else Some((key.value.s, ElementsOf(t.value, u.payload)))
  }

  /** A message with a payload key must have everything that belongs to it. */
  predicate Malformed(u: Update) {
    Find(u.md, PAYLOAD_KEY).Some? && PayloadEntry(u).None?
  }

  /** What the message asks to be stored: first its payload, then its metadata. */
  function Entries(u: Update): seq<Entry> {
    (if PayloadEntry(u).Some? then [PayloadEntry(u).value] else []) + Plain(u.md)
  }

  /** The list is made of consecutive pieces of `size` bytes, as many as fit, each read by `read`. */
  ghost predicate ReadInPieces<T(!new)>(xs: seq<T>, payload: seq<byte>, size: nat, read: seq<byte> -> T) {
    forall k: nat :: PieceRead(xs, payload, size, read, k)
  }

  ghost predicate PieceRead<T(!new)>(xs: seq<T>, payload: seq<byte>, size: nat, read: seq<byte> -> T, k: nat) {
    && (k < |xs| <==> (k + 1) * size <= |payload|)
    && (k < |xs| ==> xs[k] == read(payload[k * size..(k + 1) * size]))
  }

  lemma {:induction false} PlainHas(md: seq<Entry>, e: Entry)
    ensures e in Plain(md) <==> e in md && e.0 != "payloadKey" && e.0 != "payloadElementType"
    decreases |md|
  {
    if md != [] {
      PlainHas(md[1..], e);
      assert md == [md[0]] + md[1..];
    }
  }

  function ReadSigned(): seq<byte> -> int {
    (bytes: seq<byte>) => if bytes == [] then 0 else Signed(bytes)
  }

  function ReadFloat(exponentBits: nat, fractionBits: nat): seq<byte> -> Number
    requires exponentBits >= 1
  {
    (bytes: seq<byte>) => Float(bytes, exponentBits, fractionBits)
  }

  lemma IntegersRead(payload: seq<byte>, size: nat)
    requires size >= 1
    ensures var ps := Pieces(payload, size);
            ReadInPieces(seq(|ps|, k requires 0 <= k < |ps| => Signed(ps[k])), payload, size, ReadSigned())
  {
    hide Signed;
    var ps := Pieces(payload, size);
    var xs := seq(|ps|, k requires 0 <= k < |ps| => Signed(ps[k]));
    forall k: nat ensures PieceRead(xs, payload, size, ReadSigned(), k) {
      PieceAt(payload, size, k);
    }
  }

  lemma FloatsRead(payload: seq<byte>, size: nat, e: nat, f: nat)
    requires size >= 1 && e >= 1
    ensures var ps := Pieces(payload, size);
            ReadInPieces(seq(|ps|, k requires 0 <= k < |ps| => Float(ps[k], e, f)), payload, size, ReadFloat(e, f))
  {
    hide Float;
    var ps := Pieces(payload, size);
    var xs := seq(|ps|, k requires 0 <= k < |ps| => Float(ps[k], e, f));
    forall k: nat ensures PieceRead(xs, payload, size, ReadFloat(e, f), k) {
      PieceAt(payload, size, k);
    }
  }

  /** What a message with a payload stores first, by the name of its element type: integers in two's
      complement and binary floating-point numbers, piece by piece. Other names are malformed. */
  lemma PayloadIs(u: Update, key: Key, name: string)
    requires Find(u.md, "payloadKey") == Some(Text(key)) && Find(u.md, "payloadElementType") == Some(Text(name))
    requires u.payload != []
    ensures Malformed(u) <==> name !in {"byte", "int32", "int64", "real32", "real64"}
    ensures !Malformed(u) ==>
              && |Entries(u)| == 1 + |Plain(u.md)| && Entries(u)[1..] == Plain(u.md) && Entries(u)[0].0 == key
              && var v := Entries(u)[0].1;
                 && (name == "byte" ==> v == Bytes(u.payload))
                 && (name == "int32" ==> v.Ints? && ReadInPieces(v.ints, u.payload, 4, ReadSigned()))
                 && (name == "int64" ==> v.Ints? && ReadInPieces(v.ints, u.payload, 8, ReadSigned()))
                 && (name == "real32" ==> v.Reals? && v.single && ReadInPieces(v.xs, u.payload, 4, ReadFloat(8, 23)))
                 && (name == "real64" ==> v.Reals? && !v.single && ReadInPieces(v.xs, u.payload, 8, ReadFloat(11, 52)))
  {
    hide Pieces, Plain, Signed, Float, ReadInPieces;
    IntegersRead(u.payload, 4);
    IntegersRead(u.payload, 8);
    FloatsRead(u.payload, 4, 8, 23);
    FloatsRead(u.payload, 8, 11, 52);
  }

  lemma WriteAllConcat(data: Data, a: seq<Entry>, b: seq<Entry>)
    ensures Succeeds(data, a + b) <==> Succeeds(data, a) && Succeeds(WriteAll(data, a), b)
    ensures WriteAll(data, a + b) == if Succeeds(data, a) then WriteAll(WriteAll(data, a), b) else WriteAll(data, a)
    decreases |a|
  {
    if a == [] {
      assert a + b == b;
    } else {
      assert (a + b)[1..] == a[1..] + b;
      WriteAllConcat(Write(data, a[0]), a[1..], b);
    }
  }

  class Parametrization {
    var data: Data

    constructor ()
      ensures data == map[]
    {
      data := map[];
    }

    method UpdateKey(key: Key, val: Value) returns (o: Outcome)
      modifies this
      ensures o.Done? <==> !Conflicts(old(data), (key, val))
      ensures o.Done? <==> key !in old(data) || Same(old(data)[key], val)
      ensures data == Write(old(data), (key, val))
      ensures data == if key in old(data) then old(data) else old(data)[key := val]
    {
      if key in data {
        EqIsSame(data[key], val);
      }
      hide ValueEq, Same;
      if key !in data {
        data := data[key := val];
      } else if !ValueEq(data[key], val) {
        return Raised("key already contains a different value");
      }
      o := Done;
    }

    /** Stores the metadata up to the first conflict, leaving out the keys that describe a payload. */
    method UpdateMetadata(md: seq<Entry>) returns (o: Outcome)
      modifies this
      ensures o.Done? <==> Succeeds(old(data), Plain(md))
      ensures data == WriteAll(old(data), Plain(md))
    {
      var k := 0;
      assert md[..0] == [];
      while k < |md|
        invariant 0 <= k <= |md|
        invariant Succeeds(old(data), Plain(md[..k])) && data == WriteAll(old(data), Plain(md[..k]))
      {
        PlainConcat(md[..k], [md[k]]);
        assert md[..k + 1] == md[..k] + [md[k]] && md == md[..k + 1] + md[k + 1..];
        PlainConcat(md[..k + 1], md[k + 1..]);
        WriteAllConcat(old(data), Plain(md[..k]), Plain([md[k]]));
        WriteAllConcat(old(data), Plain(md[..k + 1]), Plain(md[k + 1..]));
        PlainOne(md[k]);
        if !Ignored(md[k].0) {
          OneWrite(data, md[k]);
          o := UpdateKey(md[k].0, md[k].1);
          if o.Raised? {
            return;
          }
        }
        k := k + 1;
      }
      assert md[..k] == md;
      o := Done;
    }

    method UpdateMessage(u: Update) returns (o: Outcome)
      modifies this
      ensures o.Done? <==> !Malformed(u) && Succeeds(old(data), Entries(u))
      ensures data == if Malformed(u) then old(data) else WriteAll(old(data), Entries(u))
    {
      var key := Find(u.md, PAYLOAD_KEY);
      if key.Some? {
        if u.payload == [] {
          return Raised("payload is empty");
        }
        var kind := Find(u.md, PAYLOAD_ELEMENT_TYPE);
        if kind.None? {
          return Raised("no element type given");
        }
        if !key.value.Text? || !kind.value.Text? {
          return Raised("not a string");
        }
        var t := DecodeElementType(kind.value.s);
        if t.None? {
          return Raised("unknown element type");
        }
        ghost var e := (key.value.s, ElementsOf(t.value, u.payload));
        OneWrite(data, e);
        WriteAllConcat(data, [e], Plain(u.md));
        o := UpdateKey(key.value.s, ElementsOf(t.value, u.payload));
        if o.Raised? {
          return;
        }
      } else {
        assert Entries(u) == Plain(u.md);
      }
      o := UpdateMetadata(u.md);
    }
  }

  lemma OneWrite(data: Data, e: Entry)
    ensures Succeeds(data, [e]) <==> !Conflicts(data, e)
    ensures WriteAll(data, [e]) == Write(data, e)
  {
    assert [e][1..] == [];
  }

  lemma PlainOne(e: Entry)
    ensures Plain([e]) == if Ignored(e.0) then [] else [e]
  {
    assert [e][1..] == [];
  }

  lemma {:induction false} PlainConcat(a: seq<Entry>, b: seq<Entry>)
    ensures Plain(a + b) == Plain(a) + Plain(b)
    decreases |a|
  {
    if a == [] {
      assert a + b == b;
    } else {
      assert (a + b)[1..] == a[1..] + b;
      PlainConcat(a[1..], b);
    }
  }

  // ---- updates that agree

  /** Every stored value equals the agreed one of its key. */
  predicate Within(agreed: Data, data: Data) {
    forall k :: k in data ==> k in agreed && ValueEq(agreed[k], data[k])
  }

  predicate Agrees(agreed: Data, es: seq<Entry>) {
    forall i :: 0 <= i < |es| ==> es[i].0 in agreed && ValueEq(agreed[es[i].0], es[i].1)
  }

  /** Updates whose values equal agreed ones always succeed, and leave only such values. */
  lemma {:induction false} AgreedSucceed(agreed: Data, data: Data, es: seq<Entry>)
    requires Within(agreed, data) && Agrees(agreed, es)
    ensures Succeeds(data, es) && Within(agreed, WriteAll(data, es))
    decreases |es|
  {
    hide ValueEq;
    if es != [] {
      var k, v := es[0].0, es[0].1;
      if k in data {
        EqSymmetric(agreed[k], data[k]);
        EqTransitive(data[k], agreed[k], v);
      }
      AgreedSucceed(agreed, Write(data, es[0]), es[1..]);
    }
  }
}
