/** Consistency of the parts of a distributed field: when the sizes add up and no global index is
    missing, the local domains partition the global one. */
module Partition {
  import opened Arithmetic
  import opened Domains
  import opened Sets

  function SumLocal(ds: seq<Domain>): nat
    requires forall k :: 0 <= k < |ds| ==> WellFormed(ds[k])
  {
    if ds == [] then 0 else SumLocal(ds[..|ds| - 1]) + LocalSize(ds[|ds| - 1])
  }

  function AllCells(ds: seq<Domain>): set<int>
    requires forall k :: 0 <= k < |ds| ==> WellFormed(ds[k])
  {
    if ds == [] then {} else AllCells(ds[..|ds| - 1]) + Cells(ds[|ds| - 1])
  }

  // ---- cardinalities

  /** A domain writes at most as many cells as it has local points. */
  lemma CellsAtMostLocal(d: Domain)
    requires WellFormed(d)
    ensures |Cells(d)| <= LocalSize(d)
  {
    match d
    case Structured(def) =>
      var g := GridOf(def);
      var f := (c: int) => if c < 0 then 0 else Product(CellRow(g, c), g.ni) + CellColumn(g, c);
      forall c | c in Cells(d) ensures 0 <= f(c) < LocalSize(d) {
        LocalIndexBounded(g, CellColumn(g, c), CellRow(g, c));
      }
      forall a, b | a in Cells(d) && b in Cells(d) && f(a) == f(b) ensures a == b {
        LocalIndexInjective(g, a, b);
      }
      InjectiveImage(Cells(d), f);
      BoundedCardinality(set c | c in Cells(d) :: f(c), LocalSize(d));
    case Unstructured(def, _) =>
      ListCardinality(def);
  }

  lemma LocalIndexBounded(g: Grid, i: int, j: int)
    requires WellFormedGrid(g) && Inside(g, i, j)
    ensures 0 <= Product(j, g.ni) + i < Product(g.ni, g.nj)
  {
    ProductMono(0, j, g.ni);
    ProductMono(j, g.nj, g.ni);
    ProductCommutes(g.ni, g.nj);
  }

  lemma LocalIndexInjective(g: Grid, a: nat, b: nat)
    requires WellFormedGrid(g)
    requires Inside(g, CellColumn(g, a), CellRow(g, a)) && Inside(g, CellColumn(g, b), CellRow(g, b))
    requires Product(CellRow(g, a), g.ni) + CellColumn(g, a) == Product(CellRow(g, b), g.ni) + CellColumn(g, b)
    ensures a == b
  {
    var ja, jb := CellRow(g, a), CellRow(g, b);
    ProductMono(if ja < jb then ja else jb, if ja < jb then jb else ja, g.ni);
    DivMod(a, g.niGlobal);
    DivMod(b, g.niGlobal);
  }

  /** No cell is written by two domains, and each writes as many cells as it has local points. */
  ghost predicate Tight(ds: seq<Domain>)
    requires forall k :: 0 <= k < |ds| ==> WellFormed(ds[k])
  {
    && (forall k :: 0 <= k < |ds| ==> |Cells(ds[k])| == LocalSize(ds[k]))
    && (forall a, b :: 0 <= a < b < |ds| ==> Cells(ds[a]) !! Cells(ds[b]))
  }

  lemma TightSnoc(init: seq<Domain>, d: Domain)
    requires (forall k :: 0 <= k < |init| ==> WellFormed(init[k])) && WellFormed(d)
    requires Tight(init) && AllCells(init) !! Cells(d) && |Cells(d)| == LocalSize(d)
    ensures Tight(init + [d])
  {
    var ds := init + [d];
    forall a, b | 0 <= a < b < |ds| ensures Cells(ds[a]) !! Cells(ds[b]) {
      if b == |init| {
        CellsInAll(init, a);
      } else {
        assert Cells(init[a]) !! Cells(init[b]);
      }
    }
  }

  /** If the domains together write as many cells as they have local points, they are tight. */
  lemma {:induction false} TightUnion(ds: seq<Domain>)
    requires forall k :: 0 <= k < |ds| ==> WellFormed(ds[k])
    ensures |AllCells(ds)| <= SumLocal(ds)
    ensures |AllCells(ds)| == SumLocal(ds) ==> Tight(ds)
    decreases |ds|
  {
    if ds != [] {
      var init, d := ds[..|ds| - 1], ds[|ds| - 1];
      TightUnion(init);
      CellsAtMostLocal(d);
      UnionSize(AllCells(init), Cells(d));
      assert ds == init + [d];
      if |AllCells(ds)| == SumLocal(ds) {
        TightSnoc(init, d);
      }
    }
  }

  lemma {:induction false} CellsInAll(ds: seq<Domain>, k: nat)
    requires forall k :: 0 <= k < |ds| ==> WellFormed(ds[k])
    requires k < |ds|
    ensures Cells(ds[k]) <= AllCells(ds)
    decreases |ds|
  {
    if k < |ds| - 1 {
      CellsInAll(ds[..|ds| - 1], k);
    }
  }

  lemma {:induction false} AllCellsFrom(ds: seq<Domain>, c: int) returns (k: nat)
    requires forall k :: 0 <= k < |ds| ==> WellFormed(ds[k])
    requires c in AllCells(ds)
    ensures k < |ds| && c in Cells(ds[k])
    decreases |ds|
  {
    if c in Cells(ds[|ds| - 1]) {
      k := |ds| - 1;
    } else {
      k := AllCellsFrom(ds[..|ds| - 1], c);
    }
  }

  // ---- partition

  /** The domains describe the same global grid of `size` cells. */
  predicate SameGrid(ds: seq<Domain>, size: nat) {
    forall k :: 0 <= k < |ds| ==> WellFormed(ds[k]) && GlobalSize(ds[k]) == size
  }

  /** Exactly one value of exactly one part is written to the cell. */
  ghost predicate OwnedOnce(ds: seq<Domain>, c: int)
    requires forall k :: 0 <= k < |ds| ==> WellFormed(ds[k])
  {
    exists k, p :: 0 <= k < |ds| && Writes(ds[k], p, c) && OnlyWriter(ds, k, p, c)
  }

  ghost predicate OnlyWriter(ds: seq<Domain>, k: int, p: int, c: int)
    requires forall k :: 0 <= k < |ds| ==> WellFormed(ds[k])
  {
    forall k', p' :: 0 <= k' < |ds| && Writes(ds[k'], p', c) ==> k' == k && p' == p
  }

  lemma AllCellsBounded(ds: seq<Domain>, size: nat)
    requires SameGrid(ds, size)
    ensures forall c :: c in AllCells(ds) ==> 0 <= c < size
  {
    forall c | c in AllCells(ds) ensures 0 <= c < size {
      var k := AllCellsFrom(ds, c);
      CellsAreWritten(ds[k]);
    }
  }

  lemma OneWriterPerDomain(d: Domain, p: int, q: int, c: int)
    requires WellFormed(d) && |Cells(d)| == LocalSize(d) && Writes(d, p, c) && Writes(d, q, c)
    ensures p == q
  {
    if d.Unstructured? {
      ListCardinality(d.definition);
    }
  }

  /** Complete by size and consistent by index count: the local domains partition the grid. */
  lemma ConsistencyImpliesPartition(ds: seq<Domain>, size: nat)
    requires SameGrid(ds, size)
    requires SumLocal(ds) == size && |AllCells(ds)| == size
    ensures forall c :: 0 <= c < size ==> OwnedOnce(ds, c)
  {
    TightUnion(ds);
    AllCellsBounded(ds, size);
    BoundedCardinality(AllCells(ds), size);
    forall c | 0 <= c < size ensures OwnedOnce(ds, c) {
      var k := AllCellsFrom(ds, c);
      CellsAreWritten(ds[k]);
      var p :| Writes(ds[k], p, c);
      forall k', p' | 0 <= k' < |ds| && Writes(ds[k'], p', c) ensures k' == k && p' == p {
        CellsAreWritten(ds[k']);
        assert c in Cells(ds[k]) && c in Cells(ds[k']);
        assert k' == k;
        OneWriterPerDomain(ds[k], p, p', c);
      }
      assert OnlyWriter(ds, k, p, c);
    }
  }

  lemma OwnedIsIn(ds: seq<Domain>, c: int)
    requires forall k :: 0 <= k < |ds| ==> WellFormed(ds[k])
    requires OwnedOnce(ds, c)
    ensures c in AllCells(ds)
  {
    var k, p :| 0 <= k < |ds| && Writes(ds[k], p, c) && OnlyWriter(ds, k, p, c);
    CellsAreWritten(ds[k]);
    CellsInAll(ds, k);
  }

  /** Conversely a partition passes the index count. */
  lemma PartitionImpliesConsistency(ds: seq<Domain>, size: nat)
    requires SameGrid(ds, size) && forall c :: 0 <= c < size ==> OwnedOnce(ds, c)
    ensures |AllCells(ds)| == size
  {
    AllCellsBounded(ds, size);
    forall c | 0 <= c < size ensures c in AllCells(ds) {
      OwnedIsIn(ds, c);
    }
    FullSet(AllCells(ds), size);
  }

  // ---- gathering the parts of a partitioned field

  /** `fields[n]` is the field after the first `n` parts, in the given order, have been scattered. */
  ghost predicate Gathered<T(!new)>(ds: seq<Domain>, locals: seq<seq<T>>, order: seq<nat>, fields: seq<seq<T>>)
    requires forall k :: 0 <= k < |ds| ==> WellFormed(ds[k])
  {
    && |locals| == |ds| && |fields| == |order| + 1
    && (forall k :: 0 <= k < |ds| ==> |locals[k]| == DataSize(ds[k]))
    && (forall n :: 0 <= n < |order| ==> order[n] < |ds|)
    && (forall n :: 0 <= n < |order| ==> Scattered(ds[order[n]], locals[order[n]], fields[n], fields[n + 1]))
  }

  lemma WritesInData(d: Domain, p: int, c: int)
    requires WellFormed(d) && Writes(d, p, c)
    ensures 0 <= p < DataSize(d)
  {
    if d.Structured? {
      var g := GridOf(d.definition);
      DataIndexBounded(g, CellColumn(g, c), CellRow(g, c));
    }
  }

  /** Once the owner of a cell has been scattered the cell holds the owner's value, whatever was
      scattered before or after. */
  lemma {:induction false} CellSettled<T(!new)>(ds: seq<Domain>, locals: seq<seq<T>>, order: seq<nat>, fields: seq<seq<T>>,
                                                n: nat, k: nat, p: nat, c: nat)
    requires forall k :: 0 <= k < |ds| ==> WellFormed(ds[k])
    requires Gathered(ds, locals, order, fields)
    requires n <= |order| && k < |ds| && k in order[..n]
    requires Writes(ds[k], p, c) && OnlyWriter(ds, k, p, c) && c < |fields[0]|
    ensures c < |fields[n]| && p < |locals[k]| && fields[n][c] == locals[k][p]
    decreases n
  {
    var m := order[n - 1];
    WritesInData(ds[k], p, c);
    FieldLengths(ds, locals, order, fields, n);
    FieldLengths(ds, locals, order, fields, n - 1);
    assert Scattered(ds[m], locals[m], fields[n - 1], fields[n]);
    assert CellAfter(ds[m], locals[m], fields[n - 1][c], c, fields[n][c]);
    if m != k {
      assert order[..n] == order[..n - 1] + [m];
      CellSettled(ds, locals, order, fields, n - 1, k, p, c);
      assert forall q :: 0 <= q < |locals[m]| ==> !Writes(ds[m], q, c);
    } else {
      assert forall q :: p < q < |locals[m]| ==> !Writes(ds[m], q, c);
    }
  }

  lemma {:induction false} FieldLengths<T(!new)>(ds: seq<Domain>, locals: seq<seq<T>>, order: seq<nat>, fields: seq<seq<T>>, n: nat)
    requires forall k :: 0 <= k < |ds| ==> WellFormed(ds[k])
    requires Gathered(ds, locals, order, fields) && n <= |order|
    ensures |fields[n]| == |fields[0]|
    decreases n
  {
    if n > 0 {
      FieldLengths(ds, locals, order, fields, n - 1);
      assert Scattered(ds[order[n - 1]], locals[order[n - 1]], fields[n - 1], fields[n]);
    }
  }

  /** In a partition every cell ends up with its owner's value. */
  lemma CellOwnersValue<T(!new)>(ds: seq<Domain>, locals: seq<seq<T>>, order: seq<nat>, fields: seq<seq<T>>,
                                 k: nat, p: int, c: nat)
    requires forall k :: 0 <= k < |ds| ==> WellFormed(ds[k])
    requires Gathered(ds, locals, order, fields) && forall k: nat :: k < |ds| ==> k in order
    requires k < |ds| && Writes(ds[k], p, c) && OnlyWriter(ds, k, p, c) && c < |fields[0]|
    ensures |fields[|order|]| == |fields[0]| && 0 <= p < |locals[k]| && fields[|order|][c] == locals[k][p]
  {
    WritesInData(ds[k], p, c);
    FieldLengths(ds, locals, order, fields, |order|);
    assert order[..|order|] == order;
    CellSettled(ds, locals, order, fields, |order|, k, p, c);
  }

  /** Scattering all parts of a partition gives the same field in every order, from every initial
      field. */
  lemma GatherOrderIrrelevant<T(!new)>(ds: seq<Domain>, locals: seq<seq<T>>, size: nat,
                                       order1: seq<nat>, fields1: seq<seq<T>>, order2: seq<nat>, fields2: seq<seq<T>>)
    requires SameGrid(ds, size) && forall c :: 0 <= c < size ==> OwnedOnce(ds, c)
    requires Gathered(ds, locals, order1, fields1) && forall k: nat :: k < |ds| ==> k in order1
    requires Gathered(ds, locals, order2, fields2) && forall k: nat :: k < |ds| ==> k in order2
    requires |fields1[0]| == |fields2[0]| == size
    ensures fields1[|order1|] == fields2[|order2|]
  {
    FieldLengths(ds, locals, order1, fields1, |order1|);
    FieldLengths(ds, locals, order2, fields2, |order2|);
    forall c | 0 <= c < size ensures fields1[|order1|][c] == fields2[|order2|][c] {
      assert OwnedOnce(ds, c);
      var k, p :| 0 <= k < |ds| && Writes(ds[k], p, c) && OnlyWriter(ds, k, p, c);
      CellOwnersValue(ds, locals, order1, fields1, k, p, c);
      CellOwnersValue(ds, locals, order2, fields2, k, p, c);
    }
  }
}
