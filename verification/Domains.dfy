/** Local domains and how their values are scattered into a global field. */
module Domains {
  import opened Wrappers
  import opened Arithmetic
  import opened Bits
  import opened MaskHeader
  import opened MaskDecode
  import opened MaskEncode
  import opened MaskRoundTrip

  const INT_MAX: int := 0x7FFF_FFFF

  datatype Domain =
    | Unstructured(definition: seq<int>, size: int)
    | Structured(definition: seq<int>)

  /** The 12 numbers of a structured definition, by name; number 6 is not used here. */
  datatype Grid = Grid(niGlobal: int, njGlobal: int, ibegin: int, ni: int, jbegin: int, nj: int,
                       dataIbegin: int, dataNi: int, dataJbegin: int, dataNj: int, partialSize: int)

  function GridOf(def: seq<int>): Grid
    requires |def| == 12
  {
    Grid(def[0], def[1], def[2], def[3], def[4], def[5], def[7], def[8], def[9], def[10], def[11])
  }

  /** Arithmetic of `int32_t`. */
  function Int32(x: int): (r: int)
    ensures -INT_MAX - 1 <= r <= INT_MAX && (r - x) % 0x1_0000_0000 == 0
  {
    if -INT_MAX - 1 <= x <= INT_MAX then x
    else (x + 0x8000_0000) % 0x1_0000_0000 - 0x8000_0000
  }

  /** A missing twelfth entry defaults to the global size. */
  function AddPartialSize(def: seq<int>): seq<int> {
    if |def| == 11 then def + [Int32(def[0] * def[1])] else def
  }

  predicate InRange(val: int, low: int, upp: int) {
    low <= val < upp
  }

  /** A non-empty rectangle inside a grid of fewer than `2^31` cells; the data rectangle may have any
      halo, or miss part of the domain. */
  predicate WellFormedGrid(g: Grid) {
    && g.niGlobal >= 1 && g.njGlobal >= 1 && Product(g.niGlobal, g.njGlobal) <= INT_MAX
    && g.ibegin >= 0 && g.ni >= 1 && g.ibegin + g.ni <= g.niGlobal
    && g.jbegin >= 0 && g.nj >= 1 && g.jbegin + g.nj <= g.njGlobal
    && g.dataNi >= 0 && g.dataNj >= 0
    && -INT_MAX <= g.dataIbegin && g.dataIbegin + g.dataNi <= INT_MAX
    && -INT_MAX <= g.dataJbegin && g.dataJbegin + g.dataNj <= INT_MAX
    && Product(g.dataNi, g.dataNj) <= INT_MAX
  }

  // ---- indices

  /** Global index of local point `(i, j)`, in `int32_t` arithmetic as the source computes it. */
  function GlobalIndex(g: Grid, i: int, j: int): int {
    Int32(Int32(Int32(g.jbegin + j) * g.niGlobal) + Int32(g.ibegin + i))
  }

  /** Point `(i, j)` lies in the local domain, so that its value is written. */
  predicate Inside(g: Grid, i: int, j: int) {
    InRange(i, 0, g.ni) && InRange(j, 0, g.nj)
  }

  predicate InData(g: Grid, i: int, j: int) {
    && InRange(i, g.dataIbegin, g.dataIbegin + g.dataNi)
    && InRange(j, g.dataJbegin, g.dataJbegin + g.dataNj)
  }

  /** Position of data point `(i, j)` in the local values, which are stored row by row. */
  function DataIndex(g: Grid, i: int, j: int): int {
    Product(j - g.dataJbegin, g.dataNi) + (i - g.dataIbegin)
  }

  function CellColumn(g: Grid, cell: nat): int
    requires g.niGlobal >= 1
  {
    cell % g.niGlobal - g.ibegin
  }

  function CellRow(g: Grid, cell: nat): int
    requires g.niGlobal >= 1
  {
    cell / g.niGlobal - g.jbegin
  }

  datatype Origin = Nowhere | At(pos: int)

  /** Reference definition, cell by cell: the position in the local values from which a global cell
      is filled, if the domain fills it at all. */
  function OriginOf(g: Grid, cell: nat): Origin
    requires g.niGlobal >= 1
  {
    var i, j := CellColumn(g, cell), CellRow(g, cell);
    if Inside(g, i, j) && InData(g, i, j) then At(DataIndex(g, i, j)) else Nowhere
  }

  lemma RowColumn(n: nat, r: nat, c: nat)
    requires c < n
    ensures (r * n + c) / n == r && (r * n + c) % n == c
  {
    DivUnique(r * n + c, n, r, c);
  }

  lemma ProductMono(a: int, b: int, n: int)
    requires n >= 0 && a <= b
    ensures Product(a, n) <= Product(b, n)
    ensures a < b ==> Product(a, n) + n <= Product(b, n)
  {
    MulGap(n, a, b);
  }

  lemma ProductCommutes(a: int, b: int)
    ensures Product(a, b) == Product(b, a)
  {
  }

  /** The index of an inside point is computed without overflow and stays inside the grid. */
  lemma IndexBounded(g: Grid, i: int, j: int)
    requires WellFormedGrid(g) && Inside(g, i, j)
    ensures 0 <= GlobalIndex(g, i, j) < Product(g.niGlobal, g.njGlobal)
    ensures GlobalIndex(g, i, j) == Product(g.jbegin + j, g.niGlobal) + (g.ibegin + i)
  {
    var r, n := g.jbegin + j, g.niGlobal;
    ProductMono(0, r, n);
    ProductMono(r, g.njGlobal, n);
    ProductCommutes(g.njGlobal, n);
    ProductMono(1, g.njGlobal, n);
    ProductMono(1, n, g.njGlobal);
    assert Product(r, n) == r * n;
  }

  /** A cell is the image of an inside point exactly when its column and row are that point's. */
  lemma IndexInverse(g: Grid, i: int, j: int, cell: nat)
    requires WellFormedGrid(g) && Inside(g, i, j)
    ensures GlobalIndex(g, i, j) == cell <==> CellColumn(g, cell) == i && CellRow(g, cell) == j
  {
    IndexBounded(g, i, j);
    RowColumn(g.niGlobal, g.jbegin + j, g.ibegin + i);
    if CellColumn(g, cell) == i && CellRow(g, cell) == j {
      DivMod(cell, g.niGlobal);
    }
  }

  lemma DivMod(x: nat, n: nat)
    requires n >= 1
    ensures x == Product(x / n, n) + x % n
  {
  }

  /** Indexing is one-to-one on the inside points. */
  lemma IndexInjective(g: Grid, i: int, j: int, i': int, j': int)
    requires WellFormedGrid(g) && Inside(g, i, j) && Inside(g, i', j')
    requires GlobalIndex(g, i, j) == GlobalIndex(g, i', j')
    ensures i == i' && j == j'
  {
    IndexBounded(g, i, j);
    IndexInverse(g, i, j, GlobalIndex(g, i, j));
    IndexInverse(g, i', j', GlobalIndex(g, i, j));
  }

  lemma DataIndexBounded(g: Grid, i: int, j: int)
    requires WellFormedGrid(g) && InData(g, i, j)
    ensures 0 <= DataIndex(g, i, j) < Product(g.dataNi, g.dataNj)
  {
    ProductMono(0, j - g.dataJbegin, g.dataNi);
    ProductMono(j - g.dataJbegin, g.dataNj, g.dataNi);
    ProductCommutes(g.dataNj, g.dataNi);
  }

  lemma DataIndexInjective(g: Grid, i: int, j: int, i': int, j': int)
    requires WellFormedGrid(g) && InData(g, i, j) && InData(g, i', j')
    requires DataIndex(g, i, j) == DataIndex(g, i', j')
    ensures i == i' && j == j'
  {
    ProductMono(if j < j' then j - g.dataJbegin else j' - g.dataJbegin,
                if j < j' then j' - g.dataJbegin else j - g.dataJbegin, g.dataNi);
  }

  /** The value at data point `(i, j)` fills exactly one cell if the point is inside, and none if it
      is a halo point. */
  lemma OriginIs(g: Grid, i: int, j: int, cell: nat)
    requires WellFormedGrid(g) && InData(g, i, j)
    ensures OriginOf(g, cell) == At(DataIndex(g, i, j)) <==> Inside(g, i, j) && GlobalIndex(g, i, j) == cell
  {
    if Inside(g, i, j) {
      IndexInverse(g, i, j, cell);
    }
    var i', j' := CellColumn(g, cell), CellRow(g, cell);
    if OriginOf(g, cell) == At(DataIndex(g, i, j)) {
      DataIndexInjective(g, i, j, i', j');
    }
  }

  // ---- what a domain writes

  /** Definitions that the source can use without undefined behaviour. */
  predicate WellFormed(d: Domain) {
    match d
    case Structured(def) => |def| == 12 && WellFormedGrid(GridOf(def))
    case Unstructured(def, size) => size <= INT_MAX && forall p :: 0 <= p < |def| ==> 0 <= def[p] < size
  }

  function GlobalSize(d: Domain): nat
    requires WellFormed(d)
  {
    match d
    case Structured(def) => ProductMono(0, def[0], def[1]); ProductCommutes(def[0], def[1]); Product(def[0], def[1])
    case Unstructured(def, size) => if size < 0 then 0 else size
  }

  function LocalSize(d: Domain): nat
    requires WellFormed(d)
  {
    match d
    case Structured(def) => ProductMono(0, def[3], def[5]); Product(def[3], def[5])
    case Unstructured(def, _) => |def|
  }

  function PartialSize(d: Domain): int
    requires WellFormed(d)
  {
    match d
    case Structured(def) => def[11]
    case Unstructured(_, size) => size
  }

  /** The number of values in a part of this domain, halo included. */
  function DataSize(d: Domain): nat
    requires WellFormed(d)
  {
    match d
    case Structured(def) => ProductMono(0, def[8], def[10]); ProductCommutes(def[8], def[10]); Product(def[8], def[10])
    case Unstructured(def, _) => |def|
  }

  /** Local value number `p` is written to global cell `c`. */
  predicate Writes(d: Domain, p: int, c: int)
    requires WellFormed(d)
  {
    && 0 <= c < GlobalSize(d)
    && match d
       case Structured(def) => OriginOf(GridOf(def), c) == At(p)
       case Unstructured(def, _) => 0 <= p < |def| && def[p] == c
  }

  /** `after` is `before` with every local value stored in its cell, a later value overriding an
      earlier one. */
  ghost predicate Scattered<T>(d: Domain, local: seq<T>, before: seq<T>, after: seq<T>)
    requires WellFormed(d)
  {
    && |after| == |before|
    && forall c :: 0 <= c < |before| ==> CellAfter(d, local, before[c], c, after[c])
  }

  ghost predicate CellAfter<T>(d: Domain, local: seq<T>, before: T, c: int, after: T)
    requires WellFormed(d)
  {
    && ((forall p :: 0 <= p < |local| ==> !Writes(d, p, c)) ==> after == before)
    && (forall p :: 0 <= p < |local| && Writes(d, p, c) && (forall q :: p < q < |local| ==> !Writes(d, q, c)) ==>
          after == local[p])
  }

  // ---- what a structured domain writes, in the entries of its definition

  /** Point `(i, j)` lies in the data rectangle and in the local domain, so that its value is written. */
  predicate Owns(def: seq<int>, i: int, j: int)
    requires |def| == 12
  {
    && def[7] <= i < def[7] + def[8] && def[9] <= j < def[9] + def[10]
    && 0 <= i < def[3] && 0 <= j < def[5]
  }

  /** The place of the point's value among the local values: row by row, halo included. */
  function PlaceOf(def: seq<int>, i: int, j: int): int
    requires |def| == 12
  {
    (j - def[9]) * def[8] + (i - def[7])
  }

  /** The global cell of the point, in exact arithmetic. */
  function CellFor(def: seq<int>, i: int, j: int): int
    requires |def| == 12
  {
    (def[4] + j) * def[0] + def[2] + i
  }

  /** What the source takes for granted about a structured definition, entry by entry. */
  lemma WellFormedEntries(def: seq<int>)
    ensures WellFormed(Structured(def)) <==>
            && |def| == 12 && def[0] >= 1 && def[1] >= 1 && def[0] * def[1] <= INT_MAX
            && def[2] >= 0 && def[3] >= 1 && def[2] + def[3] <= def[0]
            && def[4] >= 0 && def[5] >= 1 && def[4] + def[5] <= def[1]
            && def[8] >= 0 && def[10] >= 0 && def[8] * def[10] <= INT_MAX
            && -INT_MAX <= def[7] && def[7] + def[8] <= INT_MAX
            && -INT_MAX <= def[9] && def[9] + def[10] <= INT_MAX
    ensures WellFormed(Structured(def)) ==>
              && GlobalSize(Structured(def)) == def[0] * def[1] && DataSize(Structured(def)) == def[8] * def[10]
              && LocalSize(Structured(def)) == def[3] * def[5] && PartialSize(Structured(def)) == def[11]
  {
  }

  /** The value of a data point is written to the point's cell if the point lies in the local domain,
      and to no other. */
  lemma PointWrites(def: seq<int>, i: int, j: int, c: int)
    requires WellFormed(Structured(def))
    requires def[7] <= i < def[7] + def[8] && def[9] <= j < def[9] + def[10]
    ensures Writes(Structured(def), (j - def[9]) * def[8] + (i - def[7]), c) <==>
            0 <= i < def[3] && 0 <= j < def[5] && c == (def[4] + j) * def[0] + def[2] + i
    ensures 0 <= (j - def[9]) * def[8] + (i - def[7]) < DataSize(Structured(def))
    ensures 0 <= i < def[3] && 0 <= j < def[5] ==> 0 <= (def[4] + j) * def[0] + def[2] + i < GlobalSize(Structured(def))
  {
    hide OriginOf, GlobalIndex;
    var g := GridOf(def);
    DataIndexBounded(g, i, j);
    if Inside(g, i, j) {
      IndexBounded(g, i, j);
    }
    if c >= 0 {
      OriginIs(g, i, j, c);
    }
  }

  /** No value is written but those of data points. */
  lemma OnlyPointsWrite(def: seq<int>, p: int, c: int) returns (i: int, j: int)
    requires WellFormed(Structured(def)) && Writes(Structured(def), p, c)
    ensures Owns(def, i, j) && p == PlaceOf(def, i, j) && c == CellFor(def, i, j)
  {
    var g := GridOf(def);
    i, j := CellColumn(g, c), CellRow(g, c);
    PointWrites(def, i, j, c);
  }

  /** Every value of a point in the local domain is in its cell, and all other cells are as before. */
  ghost predicate Placed<T>(def: seq<int>, local: seq<T>, before: seq<T>, after: seq<T>)
    requires |def| == 12
  {
    && |after| == |before|
    && (forall i, j :: Owns(def, i, j) ==> PlacedAt(def, local, after, i, j))
    && forall c :: 0 <= c < |before| && !OwnsCell(def, c) ==> after[c] == before[c]
  }

  predicate PlacedAt<T(==)>(def: seq<int>, local: seq<T>, after: seq<T>, i: int, j: int)
    requires |def| == 12
  {
    && 0 <= PlaceOf(def, i, j) < |local| && 0 <= CellFor(def, i, j) < |after|
    && after[CellFor(def, i, j)] == local[PlaceOf(def, i, j)]
  }

  ghost predicate OwnsCell(def: seq<int>, c: int)
    requires |def| == 12
  {
    exists i, j :: Owns(def, i, j) && CellFor(def, i, j) == c
  }

  lemma PointPlaced<T>(def: seq<int>, local: seq<T>, before: seq<T>, after: seq<T>, i: int, j: int)
    requires WellFormed(Structured(def)) && Scattered(Structured(def), local, before, after)
    requires |before| == GlobalSize(Structured(def)) && |local| == DataSize(Structured(def)) && Owns(def, i, j)
    ensures PlacedAt(def, local, after, i, j)
  {
    hide OriginOf, DataSize, GlobalSize;
    var d, p, c := Structured(def), PlaceOf(def, i, j), CellFor(def, i, j);
    PointWrites(def, i, j, c);
    assert Writes(d, p, c);
    hide PlaceOf, CellFor;
    assert CellAfter(d, local, before[c], c, after[c]);
    forall q | Writes(d, q, c) ensures q == p { }
  }

  lemma RestKept<T>(def: seq<int>, local: seq<T>, before: seq<T>, after: seq<T>, c: int)
    requires WellFormed(Structured(def)) && Scattered(Structured(def), local, before, after)
    requires 0 <= c < |before| && !OwnsCell(def, c)
    ensures after[c] == before[c]
  {
    hide Writes, Owns, CellFor, WellFormed;
    var d := Structured(def);
    forall p ensures !Writes(d, p, c) {
      if Writes(d, p, c) {
        var i, j := OnlyPointsWrite(def, p, c);
      }
    }
    assert CellAfter(d, local, before[c], c, after[c]);
  }

  /** Scattering places the values of the local domain row by row. */
  lemma ScatteredIsPlaced<T>(def: seq<int>, local: seq<T>, before: seq<T>, after: seq<T>)
    requires WellFormed(Structured(def)) && Scattered(Structured(def), local, before, after)
    requires |before| == GlobalSize(Structured(def)) && |local| == DataSize(Structured(def))
    ensures Placed(def, local, before, after)
  {
    hide WellFormed, CellAfter, PlacedAt, OwnsCell, Owns, GlobalSize, DataSize;
    assert |def| == 12 by { WellFormedEntries(def); }
    forall i, j | Owns(def, i, j) ensures PlacedAt(def, local, after, i, j) {
      PointPlaced(def, local, before, after, i, j);
    }
    forall c | 0 <= c < |before| && !OwnsCell(def, c) ensures after[c] == before[c] {
      RestKept(def, local, before, after, c);
    }
  }

  // ---- the loops over a structured domain

  /** A cell once the local values before position `lit` are written. */
  function CellUpTo<T>(g: Grid, local: seq<T>, before: T, c: nat, lit: int): T
    requires g.niGlobal >= 1
  {
    match OriginOf(g, c)
    case At(p) => if 0 <= p < lit && p < |local| then local[p] else before
    case Nowhere => before
  }

  ghost predicate UpTo<T>(g: Grid, local: seq<T>, before: seq<T>, now: seq<T>, lit: int)
    requires g.niGlobal >= 1
  {
    && |now| == |before|
    && forall c :: 0 <= c < |before| ==> now[c] == CellUpTo(g, local, before[c], c, lit)
  }

  /** What the loop body does with the value at `(i, j)`. */
  function StepCell<T>(g: Grid, now: seq<T>, i: int, j: int, v: T): (r: seq<T>)
    requires WellFormedGrid(g) && |now| == Product(g.niGlobal, g.njGlobal)
    ensures |r| == |now|
  {
    if Inside(g, i, j) then IndexBounded(g, i, j); now[GlobalIndex(g, i, j) := v] else now
  }

  lemma UpToStep<T>(g: Grid, local: seq<T>, before: seq<T>, now: seq<T>, i: int, j: int)
    requires WellFormedGrid(g) && InData(g, i, j)
    requires |local| == Product(g.dataNi, g.dataNj) && |before| == Product(g.niGlobal, g.njGlobal)
    requires UpTo(g, local, before, now, DataIndex(g, i, j))
    ensures 0 <= DataIndex(g, i, j) < |local|
    ensures UpTo(g, local, before, StepCell(g, now, i, j, local[DataIndex(g, i, j)]), DataIndex(g, i, j) + 1)
  {
    DataIndexBounded(g, i, j);
    var lit := DataIndex(g, i, j);
    var next := StepCell(g, now, i, j, local[lit]);
    forall c | 0 <= c < |before| ensures next[c] == CellUpTo(g, local, before[c], c, lit + 1) {
      OriginIs(g, i, j, c);
      if Inside(g, i, j) {
        IndexBounded(g, i, j);
      }
    }
  }

  lemma UpToEnd<T>(d: Domain, local: seq<T>, before: seq<T>, now: seq<T>)
    requires WellFormed(d) && d.Structured? && |before| == GlobalSize(d)
    requires UpTo(GridOf(d.definition), local, before, now, |local|)
    ensures Scattered(d, local, before, now)
  {
    forall c | 0 <= c < |before| ensures CellAfter(d, local, before[c], c, now[c]) {
      assert now[c] == CellUpTo(GridOf(d.definition), local, before[c], c, |local|);
      var o := OriginOf(GridOf(d.definition), c);
      if o.At? && 0 <= o.pos < |local| {
        assert Writes(d, o.pos, c);
      }
    }
  }

  method StructuredToGlobal<T>(d: Domain, local: seq<T>, global: array<T>) returns (o: Outcome)
    requires WellFormed(d) && d.Structured?
    modifies global
    ensures o.Done? <==> global.Length == GlobalSize(d) && |local| == DataSize(d)
    ensures o.Done? ==> Scattered(d, local, old(global[..]), global[..])
    ensures o.Done? ==> Placed(d.definition, local, old(global[..]), global[..])
    ensures o.Raised? ==> global[..] == old(global[..])
  {
    hide Scattered, Placed;
    var g := GridOf(d.definition);
    if Product(g.niGlobal, g.njGlobal) != global.Length {
      return Raised("assertion failed: global size");
    }
    if Product(g.dataNi, g.dataNj) != |local| {
      return Raised("local size differs from the expected size");
    }
    ghost var before := global[..];
    var lit := 0;
    var j := g.dataJbegin;
    while j != g.dataJbegin + g.dataNj
      invariant g.dataJbegin <= j <= g.dataJbegin + g.dataNj
      invariant lit == DataIndex(g, g.dataIbegin, j)
      invariant UpTo(g, local, before, global[..], lit)
      decreases g.dataJbegin + g.dataNj - j
    {
      var i := g.dataIbegin;
      while i != g.dataIbegin + g.dataNi
        invariant g.dataIbegin <= i <= g.dataIbegin + g.dataNi
        invariant lit == DataIndex(g, i, j)
        invariant UpTo(g, local, before, global[..], lit)
        decreases g.dataIbegin + g.dataNi - i
      {
        UpToStep(g, local, before, global[..], i, j);
        ghost var was := global[..];
        if Inside(g, i, j) {
          IndexBounded(g, i, j);
          global[GlobalIndex(g, i, j)] := local[lit];
        }
        assert global[..] == StepCell(g, was, i, j, local[lit]);
        i, lit := i + 1, lit + 1;
      }
      NextRow(g, j);
      j := j + 1;
    }
    LastRow(g);
    UpToEnd(d, local, before, global[..]);
    ScatteredIsPlaced(d.definition, local, before, global[..]);
    o := Done;
  }

  lemma NextRow(g: Grid, j: int)
    ensures DataIndex(g, g.dataIbegin + g.dataNi, j) == DataIndex(g, g.dataIbegin, j + 1)
  {
    var r := j - g.dataJbegin;
    assert (r + 1) * g.dataNi == r * g.dataNi + g.dataNi;
  }

  lemma LastRow(g: Grid)
    ensures DataIndex(g, g.dataIbegin, g.dataJbegin + g.dataNj) == Product(g.dataNi, g.dataNj)
    ensures DataIndex(g, g.dataIbegin, g.dataJbegin) == 0
  {
    ProductCommutes(g.dataNi, g.dataNj);
  }

  /** The mask can be scattered over a bitmask of this length. */
  ghost predicate CanScatterMask(d: Domain, payload: seq<byte>, length: nat)
    requires WellFormed(d)
  {
    && d.Structured? && PartialSize(d) <= GlobalSize(d) == length
    && Readable(payload) && |Values(payload)| == DataSize(d)
  }

  /** Scatters an encoded local mask, read through the mask iterator. */
  method ToBitmask(d: Domain, payload: seq<byte>, bmask: array<bool>) returns (o: Outcome)
    requires WellFormed(d) && Defined(payload)
    modifies bmask
    ensures o.Done? <==> CanScatterMask(d, payload, bmask.Length)
    ensures o.Done? ==> Scattered(d, Values(payload), old(bmask[..]), bmask[..])
    ensures o.Done? ==> Placed(d.definition, Values(payload), old(bmask[..]), bmask[..])
    ensures o.Raised? ==> bmask[..] == old(bmask[..])
  {
    hide Scattered, Placed;
    if !d.Structured? {
      return Raised("not implemented");
    }
    var g := GridOf(d.definition);
    if g.partialSize > Product(g.niGlobal, g.njGlobal) || Product(g.niGlobal, g.njGlobal) != bmask.Length {
      return Raised("assertion failed");
    }
    var decoded := DecodeHeader(payload);
    if decoded.Failed? {
      RejectedUnreadable(payload);
      return Raised("no header");
    }
    var header := decoded.value;
    if header.numBits != Product(g.dataNj, g.dataNi) {
      ProductCommutes(g.dataNi, g.dataNj);
      return Raised("the bitmask has an unexpected size");
    }
    if header.format.BitMask? && |payload| != ComputeBufferSizeMaskBitMask(header.numBits) {
      // thrown by the constructor of the iterator
      RejectedUnreadable(payload);
      return Raised("size of the buffer differs from the expected size");
    }
    ghost var before := bmask[..];
    ScatterMask(d, payload, header, bmask);
    ScatteredIsPlaced(d.definition, Values(payload), before, bmask[..]);
    o := Done;
  }

  /** The loops of `toBitmask`, once the size is checked. */
  method ScatterMask(d: Domain, payload: seq<byte>, header: Header, bmask: array<bool>)
    requires WellFormed(d) && d.Structured? && bmask.Length == GlobalSize(d)
    requires Readable(payload) && DecodeHeader(payload) == Ok(header) && header.numBits == DataSize(d)
    modifies bmask
    ensures |Values(payload)| == DataSize(d) && Scattered(d, Values(payload), old(bmask[..]), bmask[..])
  {
    var g := GridOf(d.definition);
    ghost var local := Values(payload);
    var it := new MaskPayloadIterator(payload, header, false);
    assert local[0..] == local;
    ghost var before := bmask[..];
    BitmaskRows(g, it, payload, header, local, before, bmask);
    UpToEnd(d, local, before, bmask[..]);
  }

  /** The outer loop, over the rows. */
  method BitmaskRows(g: Grid, it: MaskPayloadIterator, ghost payload: seq<byte>, ghost h: Header,
                     ghost local: seq<bool>, ghost before: seq<bool>, bmask: array<bool>)
    requires WellFormedGrid(g) && |local| == Product(g.dataNi, g.dataNj)
    requires before == bmask[..] && |before| == Product(g.niGlobal, g.njGlobal)
    requires ReadyAt(it, payload, h, local, 0)
    modifies bmask, it, it.it
    ensures UpTo(g, local, before, bmask[..], |local|)
  {
    LastRow(g);
    var j := g.dataJbegin;
    while j != g.dataJbegin + g.dataNj
      invariant g.dataJbegin <= j <= g.dataJbegin + g.dataNj
      invariant UpTo(g, local, before, bmask[..], DataIndex(g, g.dataIbegin, j))
      invariant it.it == old(it.it) && ReadyAt(it, payload, h, local, DataIndex(g, g.dataIbegin, j))
      decreases g.dataJbegin + g.dataNj - j
    {
      BitmaskRow(g, j, it, payload, h, local, before, bmask);
      NextRow(g, j);
      j := j + 1;
    }
  }

  /** The inner loop, over the data points of one row. */
  method BitmaskRow(g: Grid, j: int, it: MaskPayloadIterator, ghost payload: seq<byte>, ghost h: Header,
                    ghost local: seq<bool>, ghost before: seq<bool>, bmask: array<bool>)
    requires WellFormedGrid(g) && InRange(j, g.dataJbegin, g.dataJbegin + g.dataNj)
    requires |local| == Product(g.dataNi, g.dataNj) && |before| == Product(g.niGlobal, g.njGlobal)
    requires UpTo(g, local, before, bmask[..], DataIndex(g, g.dataIbegin, j))
    requires ReadyAt(it, payload, h, local, DataIndex(g, g.dataIbegin, j))
    modifies bmask, it, it.it
    ensures UpTo(g, local, before, bmask[..], DataIndex(g, g.dataIbegin + g.dataNi, j))
    ensures it.it == old(it.it) && ReadyAt(it, payload, h, local, DataIndex(g, g.dataIbegin + g.dataNi, j))
  {
    ghost var lit := DataIndex(g, g.dataIbegin, j);
    var i := g.dataIbegin;
    while i != g.dataIbegin + g.dataNi
      invariant g.dataIbegin <= i <= g.dataIbegin + g.dataNi
      invariant lit == DataIndex(g, i, j)
      invariant UpTo(g, local, before, bmask[..], lit)
      invariant it.it == old(it.it) && ReadyAt(it, payload, h, local, lit)
      decreases g.dataIbegin + g.dataNi - i
    {
      UpToStep(g, local, before, bmask[..], i, j);
      ghost var was := bmask[..];
      var v := TakeValue(it, payload, h, local, lit);
      if Inside(g, i, j) {
        IndexBounded(g, i, j);
        bmask[GlobalIndex(g, i, j)] := v;
      }
      assert bmask[..] == StepCell(g, was, i, j, local[lit]);
      i, lit := i + 1, lit + 1;
    }
  }

  /** `*lit` followed by `++lit`. */
  method TakeValue(it: MaskPayloadIterator, ghost payload: seq<byte>, ghost h: Header, ghost local: seq<bool>, ghost lit: nat)
    returns (v: bool)
    requires ReadyAt(it, payload, h, local, lit) && lit < |local|
    modifies it, it.it
    ensures it.it == old(it.it) && ReadyAt(it, payload, h, local, lit + 1) && v == local[lit]
  {
    v := it.val;
    assert local[lit..][1..] == local[lit + 1..];
    it.Advance();
  }

  /** The iterator stands at value `lit` and will yield the rest of `local`. */
  ghost predicate ReadyAt(it: MaskPayloadIterator, payload: seq<byte>, h: Header, local: seq<bool>, lit: int)
    reads it, it.it
  {
    && it.Valid() && it.payload == payload && it.header == h
    && 0 <= lit <= |local| && YieldsBits(payload, h, it.State(), local[lit..])
  }

  // ---- the loop over an unstructured domain

  ghost predicate ListedUpTo<T>(def: seq<int>, local: seq<T>, before: T, c: int, now: T, n: nat)
    requires n <= |def| && n <= |local|
  {
    && ((forall p :: 0 <= p < n ==> def[p] != c) ==> now == before)
    && (forall p :: 0 <= p < n && def[p] == c && (forall q :: p < q < n ==> def[q] != c) ==> now == local[p])
  }

  method UnstructuredToGlobal<T>(d: Domain, local: seq<T>, global: array<T>) returns (o: Outcome)
    requires WellFormed(d) && d.Unstructured? && forall p :: 0 <= p < |d.definition| ==> d.definition[p] < global.Length
    modifies global
    ensures o.Done? <==> |local| == DataSize(d)
    ensures o.Done? ==> Scattered(d, local, old(global[..]), global[..])
    ensures o.Raised? ==> global[..] == old(global[..])
  {
    var def := d.definition;
    if |local| != |def| {
      return Raised("assertion failed: local size");
    }
    var lit := 0;
    while lit < |def|
      invariant 0 <= lit <= |def|
      invariant forall c :: 0 <= c < global.Length ==> ListedUpTo(def, local, old(global[c]), c, global[c], lit)
    {
      ghost var was := global[..];
      global[def[lit]] := local[lit];
      forall c | 0 <= c < global.Length ensures ListedUpTo(def, local, old(global[c]), c, global[c], lit + 1) {
        assert ListedUpTo(def, local, old(global[c]), c, was[c], lit);
      }
      lit := lit + 1;
    }
    forall c | 0 <= c < global.Length ensures CellAfter(d, local, old(global[c]), c, global[c]) {
      assert ListedUpTo(def, local, old(global[c]), c, global[c], lit);
      forall p | 0 <= p < |def| ensures Writes(d, p, c) <==> def[p] == c { }
    }
    o := Done;
  }

  // ---- collecting the indices a domain writes

  /** The cells a domain writes. */
  function Cells(d: Domain): set<int>
    requires WellFormed(d)
  {
    match d
    case Structured(def) => set c: int | 0 <= c < GlobalSize(d) && OriginOf(GridOf(def), c).At?
    case Unstructured(def, _) => set c | c in def
  }

  lemma CellsAreWritten(d: Domain)
    requires WellFormed(d)
    ensures forall c :: c in Cells(d) <==> exists p :: Writes(d, p, c)
    ensures forall c :: c in Cells(d) ==> 0 <= c < GlobalSize(d)
  {
    forall c ensures c in Cells(d) <==> exists p :: Writes(d, p, c) {
      if c in Cells(d) {
        if d.Structured? {
          assert Writes(d, OriginOf(GridOf(d.definition), c).pos, c);
        } else {
          var p :| 0 <= p < |d.definition| && d.definition[p] == c;
          assert Writes(d, p, c);
        }
      }
    }
  }

  /** Cells written before the loop reaches data position `lit`. */
  ghost function CellsUpTo(g: Grid, lit: int): set<int>
    requires WellFormedGrid(g)
  {
    set c: int | 0 <= c < Product(g.niGlobal, g.njGlobal) && OriginOf(g, c).At? && OriginOf(g, c).pos < lit
  }

  lemma CellsUpToCell(g: Grid, i: int, j: int, c: int)
    requires WellFormedGrid(g) && InData(g, i, j)
    ensures var lit := DataIndex(g, i, j);
            && (c in CellsUpTo(g, lit + 1) <==> c in CellsUpTo(g, lit) || (Inside(g, i, j) && c == GlobalIndex(g, i, j)))
            && (Inside(g, i, j) && c == GlobalIndex(g, i, j) ==> c !in CellsUpTo(g, lit))
  {
    if Inside(g, i, j) {
      IndexBounded(g, i, j);
    }
    if 0 <= c < Product(g.niGlobal, g.njGlobal) {
      OriginIs(g, i, j, c);
    }
  }

  lemma CellsUpToStep(g: Grid, i: int, j: int)
    requires WellFormedGrid(g) && InData(g, i, j)
    ensures Inside(g, i, j) ==> GlobalIndex(g, i, j) !in CellsUpTo(g, DataIndex(g, i, j))
    ensures CellsUpTo(g, DataIndex(g, i, j) + 1) ==
            CellsUpTo(g, DataIndex(g, i, j)) + if Inside(g, i, j) then {GlobalIndex(g, i, j)} else {}
  {
    var next := CellsUpTo(g, DataIndex(g, i, j)) + if Inside(g, i, j) then {GlobalIndex(g, i, j)} else {};
    CellsUpToCell(g, i, j, GlobalIndex(g, i, j));
    forall c ensures c in CellsUpTo(g, DataIndex(g, i, j) + 1) <==> c in next {
      CellsUpToCell(g, i, j, c);
    }
  }

  lemma CellsUpToEnds(d: Domain)
    requires WellFormed(d) && d.Structured?
    ensures CellsUpTo(GridOf(d.definition), 0) == {}
    ensures CellsUpTo(GridOf(d.definition), DataSize(d)) == Cells(d)
  {
    var g := GridOf(d.definition);
    forall c: nat | OriginOf(g, c).At? ensures 0 <= OriginOf(g, c).pos < DataSize(d) {
      DataIndexBounded(g, CellColumn(g, c), CellRow(g, c));
    }
  }

  /** They are the cells of the points in the local domain. */
  lemma CellsAreOwned(def: seq<int>)
    requires WellFormed(Structured(def))
    ensures |def| == 12 && forall c :: c in Cells(Structured(def)) <==> OwnsCell(def, c)
  {
    hide Cells, Writes, Owns, CellFor;
    var d := Structured(def);
    CellsAreWritten(d);
    forall c ensures c in Cells(d) <==> OwnsCell(def, c) {
      if c in Cells(d) {
        var p :| Writes(d, p, c);
        var i, j := OnlyPointsWrite(def, p, c);
      }
      if OwnsCell(def, c) {
        var i, j :| Owns(def, i, j) && CellFor(def, i, j) == c;
        OwnedIsWritten(def, i, j);
      }
    }
  }

  lemma OwnedIsWritten(def: seq<int>, i: int, j: int)
    requires WellFormed(Structured(def)) && Owns(def, i, j)
    ensures Writes(Structured(def), PlaceOf(def, i, j), CellFor(def, i, j))
  {
    hide Writes;
    PointWrites(def, i, j, CellFor(def, i, j));
  }

  /** Adds the cells of a structured domain to the set, failing on one that is already there. A
      single domain never repeats a cell, so only cells of earlier domains can cause a failure. */
  method CollectStructured(d: Domain, payloadSize: nat, glIndices: set<int>) returns (o: Outcome, indices: set<int>)
    requires WellFormed(d) && d.Structured?
    ensures o.Done? <==> |glIndices| < GlobalSize(d) && payloadSize == DataSize(d) && Cells(d) !! glIndices
    ensures o.Done? ==> indices == glIndices + Cells(d)
    ensures o.Done? ==> forall c :: c in indices <==> c in glIndices || OwnsCell(d.definition, c)
  {
    hide Int32, OriginOf, CellsUpTo, Cells, OwnsCell;
    CellsAreOwned(d.definition);
    var g := GridOf(d.definition);
    indices := glIndices;
    if |indices| >= Product(g.niGlobal, g.njGlobal) {
      return Raised("assertion failed: too many indices"), indices;
    }
    if payloadSize != Product(g.dataNi, g.dataNj) {
      return Raised("mismatch between sizes of index map and local field"), indices;
    }
    CellsUpToEnds(d);
    LastRow(g);
    var j := g.dataJbegin;
    while j != g.dataJbegin + g.dataNj
      invariant g.dataJbegin <= j <= g.dataJbegin + g.dataNj
      invariant indices == glIndices + CellsUpTo(g, DataIndex(g, g.dataIbegin, j))
      invariant CellsUpTo(g, DataIndex(g, g.dataIbegin, j)) !! glIndices
      decreases g.dataJbegin + g.dataNj - j
    {
      o, indices := CollectRow(d, j, glIndices, indices);
      if o.Raised? {
        return;
      }
      NextRow(g, j);
      j := j + 1;
    }
    o := Done;
  }

  /** The inner loop, over the data points of one row. */
  method CollectRow(d: Domain, j: int, ghost glIndices: set<int>, before: set<int>) returns (o: Outcome, indices: set<int>)
    requires WellFormed(d) && d.Structured?
    requires var g := GridOf(d.definition);
             && InRange(j, g.dataJbegin, g.dataJbegin + g.dataNj)
             && before == glIndices + CellsUpTo(g, DataIndex(g, g.dataIbegin, j))
             && CellsUpTo(g, DataIndex(g, g.dataIbegin, j)) !! glIndices
    ensures var g := GridOf(d.definition);
            && (o.Raised? ==> !(Cells(d) !! glIndices))
            && (o.Done? ==>
                  && indices == glIndices + CellsUpTo(g, DataIndex(g, g.dataIbegin + g.dataNi, j))
                  && CellsUpTo(g, DataIndex(g, g.dataIbegin + g.dataNi, j)) !! glIndices)
  {
    hide Int32, OriginOf, Cells, CellsUpTo, Product;
    var g := GridOf(d.definition);
    indices := before;
    var i := g.dataIbegin;
    while i != g.dataIbegin + g.dataNi
      invariant g.dataIbegin <= i <= g.dataIbegin + g.dataNi
      invariant indices == glIndices + CellsUpTo(g, DataIndex(g, i, j))
      invariant CellsUpTo(g, DataIndex(g, i, j)) !! glIndices
      decreases g.dataIbegin + g.dataNi - i
    {
      CellsUpToStep(g, i, j);
      if Inside(g, i, j) {
        var gidx := GlobalIndex(g, i, j);
        if gidx in indices {
          CellOfPoint(d, i, j);
          return Raised("assertion failed: index already present"), indices;
        }
        indices := indices + {gidx};
      }
      i := i + 1;
    }
    o := Done;
  }

  lemma CellOfPoint(d: Domain, i: int, j: int)
    requires WellFormed(d) && d.Structured?
    requires Inside(GridOf(d.definition), i, j) && InData(GridOf(d.definition), i, j)
    ensures GlobalIndex(GridOf(d.definition), i, j) in Cells(d)
  {
    var g := GridOf(d.definition);
    IndexBounded(g, i, j);
    OriginIs(g, i, j, GlobalIndex(g, i, j));
  }

  method CollectUnstructured(d: Domain, payloadSize: nat, glIndices: set<int>) returns (o: Outcome, indices: set<int>)
    requires WellFormed(d) && d.Unstructured?
    ensures o.Done? <==> payloadSize == DataSize(d)
    ensures o.Done? ==> indices == glIndices + Cells(d)
  {
    indices := glIndices;
    if payloadSize != |d.definition| {
      return Raised("mismatch between sizes of index map and local field"), indices;
    }
    var n := 0;
    while n < |d.definition|
      invariant 0 <= n <= |d.definition|
      invariant indices == glIndices + set c | c in d.definition[..n]
    {
      indices := indices + {d.definition[n]};
      n := n + 1;
    }
    assert d.definition[..n] == d.definition;
    o := Done;
  }

  method CollectIndices(d: Domain, payloadSize: nat, glIndices: set<int>) returns (o: Outcome, indices: set<int>)
    requires WellFormed(d)
    ensures o.Done? <==>
            payloadSize == DataSize(d) && (d.Structured? ==> |glIndices| < GlobalSize(d) && Cells(d) !! glIndices)
    ensures o.Done? ==> indices == glIndices + Cells(d)
  {
    match d
    case Structured(_) => o, indices := CollectStructured(d, payloadSize, glIndices);
    case Unstructured(_, _) => o, indices := CollectUnstructured(d, payloadSize, glIndices);
  }
}
