/** The cells of an assembled mask: what each of them holds, and when the order of the parts matters. */
module GlobalMask {
  import opened Domains
  import opened MaskRoundTrip
  import opened Messages
  import opened Rounds
  import A = MaskAssembly
  import M = Mappings

  /** The part can be scattered. */
  ghost predicate Fitted(dm: M.DomainMap, part: Message) {
    M.WellFormedMap(dm) && A.IsPart(part, part.md) && A.Fits(dm, part)
  }

  /** The part writes the cell. */
  ghost predicate Covers(dm: M.DomainMap, part: Message, c: nat) {
    Fitted(dm, part) && OriginOf(GridOf(dm.parts[part.source].definition), c).At?
  }

  lemma CoveredInData(dm: M.DomainMap, part: Message, c: nat)
    requires Covers(dm, part, c)
    ensures 0 <= OriginOf(GridOf(dm.parts[part.source].definition), c).pos < |Values(part.body.payload)|
  {
    hide Values, Readable;
    var d := dm.parts[part.source];
    var g := GridOf(d.definition);
    DataIndexBounded(g, CellColumn(g, c), CellRow(g, c));
  }

  /** The value the part has for the cell, if it writes it. */
  ghost function ValueAt(dm: M.DomainMap, part: Message, c: nat): bool {
    if Covers(dm, part, c) then
      CoveredInData(dm, part, c);
      Values(part.body.payload)[OriginOf(GridOf(dm.parts[part.source].definition), c).pos]
    else false
  }

  lemma AssembledStep(dm: M.DomainMap, md: Metadata, init: seq<Message>, m: Message, c: nat)
    requires M.WellFormedMap(dm) && md.globalSize >= 0 && A.AllFit(dm, md, init + [m]) && c < md.globalSize
    ensures A.AllFit(dm, md, init) && A.IsPart(m, md) && A.Fits(dm, m)
    ensures A.Assembled(dm, md, init + [m])[c] ==
            if Covers(dm, m, c) then ValueAt(dm, m, c) else A.Assembled(dm, md, init)[c]
  {
    hide A.Fits, Values, Readable, OriginOf;
    var parts := init + [m];
    assert parts[|init|] == m;
    forall k | 0 <= k < |init| ensures A.IsPart(init[k], md) && A.Fits(dm, init[k]) {
      assert parts[k] == init[k];
    }
    A.AssembledSnoc(dm, md, init, m);
    CellIsWritten(dm, m, A.Assembled(dm, md, init)[c], c);
  }

  lemma CellIsWritten(dm: M.DomainMap, m: Message, before: bool, c: nat)
    requires Fitted(dm, m)
    ensures A.CellWith(dm.parts[m.source], Values(m.body.payload), before, c) ==
            if Covers(dm, m, c) then ValueAt(dm, m, c) else before
  {
    hide Values, Readable, OriginOf;
    if Covers(dm, m, c) {
      CoveredInData(dm, m, c);
    }
  }

  /** A cell that no part covers stays false, and otherwise it holds the value of the last part that
      covers it. */
  lemma {:induction false} AssembledCell(dm: M.DomainMap, md: Metadata, parts: seq<Message>, c: nat)
    requires M.WellFormedMap(dm) && md.globalSize >= 0 && A.AllFit(dm, md, parts) && c < md.globalSize
    ensures (forall k :: 0 <= k < |parts| ==> !Covers(dm, parts[k], c)) ==> !A.Assembled(dm, md, parts)[c]
    ensures forall k :: 0 <= k < |parts| && Covers(dm, parts[k], c)
                        && (forall j :: k < j < |parts| ==> !Covers(dm, parts[j], c)) ==>
              A.Assembled(dm, md, parts)[c] == ValueAt(dm, parts[k], c)
    decreases |parts|
  {
    hide A.Fits, A.IsPart, Covers, ValueAt;
    if parts != [] {
      var init, m := parts[..|parts| - 1], parts[|parts| - 1];
      assert parts == init + [m];
      AssembledStep(dm, md, init, m, c);
      AssembledCell(dm, md, init, c);
      assert forall k :: 0 <= k < |init| ==> parts[k] == init[k];
    }
  }

  /** Parts that cover the same cell have the same value for it. */
  ghost predicate Agree(dm: M.DomainMap, md: Metadata, parts: seq<Message>) {
    forall i, j, c: nat :: 0 <= i < j < |parts| && c < md.globalSize ==> AgreeAt(dm, parts[i], parts[j], c)
  }

  ghost predicate AgreeAt(dm: M.DomainMap, a: Message, b: Message, c: nat) {
    Covers(dm, a, c) && Covers(dm, b, c) ==> ValueAt(dm, a, c) == ValueAt(dm, b, c)
  }

  /** If the parts agree, a cell holds the value of any part that covers it. */
  lemma OwnersValue(dm: M.DomainMap, md: Metadata, parts: seq<Message>, k: nat, c: nat)
    requires M.WellFormedMap(dm) && md.globalSize >= 0 && A.AllFit(dm, md, parts) && c < md.globalSize
    requires k < |parts| && Covers(dm, parts[k], c) && Agree(dm, md, parts)
    ensures A.Assembled(dm, md, parts)[c] == ValueAt(dm, parts[k], c)
  {
    hide A.Fits, A.IsPart, Covers, ValueAt, A.Assembled;
    AssembledCell(dm, md, parts, c);
    var l := LastCovering(dm, md, parts, k, c);
    assert l == k || AgreeAt(dm, parts[k], parts[l], c);
  }

  lemma {:induction false} LastCovering(dm: M.DomainMap, md: Metadata, parts: seq<Message>, k: nat, c: nat) returns (l: nat)
    requires M.WellFormedMap(dm) && A.AllFit(dm, md, parts) && k < |parts| && Covers(dm, parts[k], c)
    ensures k <= l < |parts| && Covers(dm, parts[l], c) && forall j :: l < j < |parts| ==> !Covers(dm, parts[j], c)
    decreases |parts| - k
  {
    hide A.Fits, A.IsPart, Covers;
    if j :| k < j < |parts| && Covers(dm, parts[j], c) {
      l := LastCovering(dm, md, parts, j, c);
    } else {
      l := k;
    }
  }

  /** Agreeing parts assemble to the same mask in every order. */
  lemma OrderIrrelevant(dm: M.DomainMap, md: Metadata, a: seq<Message>, b: seq<Message>)
    requires M.WellFormedMap(dm) && md.globalSize >= 0 && A.AllFit(dm, md, a) && A.AllFit(dm, md, b)
    requires SameMembers(a, b) && Agree(dm, md, a) && Agree(dm, md, b)
    ensures A.Assembled(dm, md, a) == A.Assembled(dm, md, b)
  {
    hide A.Fits, A.IsPart, Covers, ValueAt, A.Assembled, Agree;
    forall c: nat | c < md.globalSize ensures A.Assembled(dm, md, a)[c] == A.Assembled(dm, md, b)[c] {
      AssembledCell(dm, md, a, c);
      AssembledCell(dm, md, b, c);
      if k :| 0 <= k < |a| && Covers(dm, a[k], c) {
        assert a[k] in b;
        var l :| 0 <= l < |b| && b[l] == a[k];
        OwnersValue(dm, md, a, k, c);
        OwnersValue(dm, md, b, l, c);
      } else {
        forall l | 0 <= l < |b| ensures !Covers(dm, b[l], c) {
          assert b[l] in a;
          var k :| 0 <= k < |a| && a[k] == b[l];
        }
      }
    }
  }

  /** The parts with number `k` moved to the end. */
  function Moved(parts: seq<Message>, k: nat): seq<Message>
    requires k < |parts|
  {
    parts[..k] + parts[k + 1..] + [parts[k]]
  }

  lemma MovedIsPermutation(parts: seq<Message>, k: nat)
    requires k < |parts|
    ensures multiset(Moved(parts, k)) == multiset(parts)
  {
    assert parts == parts[..k] + [parts[k]] + parts[k + 1..];
  }

  lemma PermutationMembers(parts: seq<Message>, order: seq<Message>)
    requires multiset(order) == multiset(parts)
    ensures SameMembers(parts, order)
  {
    assert forall m :: m in order <==> m in multiset(order);
    assert forall m :: m in parts <==> m in multiset(parts);
  }

  lemma SameMembersFit(dm: M.DomainMap, md: Metadata, parts: seq<Message>, order: seq<Message>)
    requires M.WellFormedMap(dm) && A.AllFit(dm, md, parts) && SameMembers(parts, order)
    ensures A.AllFit(dm, md, order)
  {
    hide A.Fits, Readable;
    forall k | 0 <= k < |order| ensures A.IsPart(order[k], md) && A.Fits(dm, order[k]) {
      assert order[k] in parts;
    }
  }

  ghost predicate SameInEveryOrder(dm: M.DomainMap, md: Metadata, parts: seq<Message>)
    requires M.WellFormedMap(dm) && md.globalSize >= 0
  {
    forall order :: multiset(order) == multiset(parts) ==>
      A.AllFit(dm, md, parts) && A.AllFit(dm, md, order) && A.Assembled(dm, md, order) == A.Assembled(dm, md, parts)
  }

  lemma SameMembersAgree(dm: M.DomainMap, md: Metadata, parts: seq<Message>, order: seq<Message>)
    requires Agree(dm, md, parts) && SameMembers(parts, order)
    ensures Agree(dm, md, order)
  {
    hide Covers, ValueAt;
    forall i, j, c: nat | 0 <= i < j < |order| && c < md.globalSize ensures AgreeAt(dm, order[i], order[j], c) {
      assert order[i] in parts && order[j] in parts;
      var k :| 0 <= k < |parts| && parts[k] == order[i];
      var l :| 0 <= l < |parts| && parts[l] == order[j];
      assert k < l ==> AgreeAt(dm, parts[k], parts[l], c);
      assert l < k ==> AgreeAt(dm, parts[l], parts[k], c);
    }
  }

  lemma LastWins(dm: M.DomainMap, md: Metadata, parts: seq<Message>, k: nat, c: nat)
    requires M.WellFormedMap(dm) && md.globalSize >= 0 && A.AllFit(dm, md, parts)
    requires k < |parts| && c < md.globalSize && Covers(dm, parts[k], c)
    ensures A.AllFit(dm, md, Moved(parts, k)) && A.Assembled(dm, md, Moved(parts, k))[c] == ValueAt(dm, parts[k], c)
  {
    hide A.Fits, A.IsPart, Covers, ValueAt, A.Assembled, A.AllFit;
    MovedIsPermutation(parts, k);
    PermutationMembers(parts, Moved(parts, k));
    SameMembersFit(dm, md, parts, Moved(parts, k));
    AssembledStep(dm, md, parts[..k] + parts[k + 1..], parts[k], c);
  }

  /** The order of the parts is irrelevant exactly when parts that cover the same cell agree on it. */
  lemma OrderIrrelevantIff(dm: M.DomainMap, md: Metadata, parts: seq<Message>)
    requires M.WellFormedMap(dm) && md.globalSize >= 0 && A.AllFit(dm, md, parts)
    ensures SameInEveryOrder(dm, md, parts) <==> Agree(dm, md, parts)
  {
    hide A.Fits, A.IsPart, Covers, ValueAt, A.Assembled;
    if Agree(dm, md, parts) {
      forall order | multiset(order) == multiset(parts)
        ensures A.AllFit(dm, md, order) && A.Assembled(dm, md, order) == A.Assembled(dm, md, parts)
      {
        PermutationMembers(parts, order);
        SameMembersFit(dm, md, parts, order);
        SameMembersAgree(dm, md, parts, order);
        OrderIrrelevant(dm, md, parts, order);
      }
    }
    if SameInEveryOrder(dm, md, parts) {
      forall i, j, c: nat | 0 <= i < j < |parts| && c < md.globalSize ensures AgreeAt(dm, parts[i], parts[j], c) {
        if Covers(dm, parts[i], c) && Covers(dm, parts[j], c) {
          LastWins(dm, md, parts, i, c);
          LastWins(dm, md, parts, j, c);
          MovedIsPermutation(parts, i);
          MovedIsPermutation(parts, j);
          assert A.Assembled(dm, md, Moved(parts, i)) == A.Assembled(dm, md, Moved(parts, j));
        }
      }
    }
  }

  /** Domains of different peers write different cells. */
  ghost predicate Disjoint(dm: M.DomainMap)
    requires M.WellFormedMap(dm)
  {
    forall p, q :: p in dm.parts && q in dm.parts && p != q ==> Cells(dm.parts[p]) !! Cells(dm.parts[q])
  }

  lemma CoveredCell(dm: M.DomainMap, part: Message, c: nat)
    requires Covers(dm, part, c) && c < part.md.globalSize
    ensures part.source in dm.parts && c in Cells(dm.parts[part.source])
  {
    hide Values, Readable;
    assert GlobalSize(dm.parts[part.source]) == part.md.globalSize;
  }

  /** Parts of different peers over disjoint domains always agree. */
  lemma DisjointAgree(dm: M.DomainMap, md: Metadata, parts: seq<Message>)
    requires M.WellFormedMap(dm) && A.AllFit(dm, md, parts) && Disjoint(dm)
    requires forall i, j :: 0 <= i < j < |parts| ==> parts[i].source != parts[j].source
    ensures Agree(dm, md, parts)
  {
    hide A.Fits, Covers, ValueAt, Cells, Readable;
    forall i, j, c: nat | 0 <= i < j < |parts| && c < md.globalSize ensures AgreeAt(dm, parts[i], parts[j], c) {
      if Covers(dm, parts[i], c) && Covers(dm, parts[j], c) {
        CoveredCell(dm, parts[i], c);
        CoveredCell(dm, parts[j], c);
        assert false;
      }
    }
  }
}
