/** The server's registry of local domains. */
module Mappings {
  import opened Wrappers
  import opened Domains
  import opened Messages
  import opened Sets
  import P = Partition

  datatype DomainMap = DomainMap(parts: map<Peer, Domain>, consistent: bool)

  const EMPTY_MAP := DomainMap(map[], false)

  type State = map<string, DomainMap>

  ghost predicate Sound(parts: map<Peer, Domain>) {
    forall p :: p in parts ==> WellFormed(parts[p])
  }

  ghost predicate WellFormedMap(m: DomainMap) {
    Sound(m.parts)
  }

  ghost predicate WellFormedState(s: State) {
    forall name :: name in s ==> WellFormedMap(s[name])
  }

  function Lookup(s: State, name: string): DomainMap {
    if name in s then s[name] else EMPTY_MAP
  }

  // ---- completeness by size

  /** Total local size of the parts registered for peers below `n`. */
  ghost function SumBelow(parts: map<Peer, Domain>, n: nat): nat
    requires Sound(parts)
  {
    if n == 0 then 0 else SumBelow(parts, n - 1) + if n - 1 in parts then LocalSize(parts[n - 1]) else 0
  }

  ghost predicate Bounds(keys: set<Peer>, n: nat) {
    forall p :: p in keys ==> p < n
  }

  lemma {:induction false} SumGap(parts: map<Peer, Domain>, a: nat, b: nat)
    requires Sound(parts)
    requires a <= b && forall p :: p in parts ==> p < a || b <= p
    ensures SumBelow(parts, a) == SumBelow(parts, b)
    decreases b
  {
    if a < b {
      SumGap(parts, a, b - 1);
    }
  }

  lemma {:induction false} SumInsert(parts: map<Peer, Domain>, q: Peer, d: Domain, n: nat)
    requires Sound(parts) && WellFormed(d) && q !in parts
    ensures SumBelow(parts[q := d], n) == SumBelow(parts, n) + if q < n then LocalSize(d) else 0
    decreases n
  {
    if n != 0 {
      SumInsert(parts, q, d, n - 1);
    }
  }

  lemma {:induction false} SomeBound(keys: set<Peer>)
    ensures exists n: nat :: Bounds(keys, n)
    decreases |keys|
  {
    if |keys| == 0 {
      assert Bounds(keys, 0);
    } else {
      EmptyOrMember(keys);
      var p :| p in keys;
      RemoveOne(keys, p);
      SomeBound(keys - {p});
      var m: nat :| Bounds(keys - {p}, m);
      var n := if p < m then m else p + 1;
      forall q | q in keys ensures q < n {
        assert q == p || q in keys - {p};
      }
      assert Bounds(keys, n);
    }
  }

  ghost function Bound(keys: set<Peer>): (n: nat)
    ensures Bounds(keys, n)
  {
    SomeBound(keys);
    var n: nat :| Bounds(keys, n);
    n
  }

  /** The total local size of a map of parts. */
  ghost function Total(parts: map<Peer, Domain>): nat
    requires Sound(parts)
  {
    SumBelow(parts, Bound(parts.Keys))
  }

  lemma TotalIs(parts: map<Peer, Domain>, n: nat)
    requires Sound(parts) && Bounds(parts.Keys, n)
    ensures Total(parts) == SumBelow(parts, n)
  {
    var b := Bound(parts.Keys);
    if b <= n {
      SumGap(parts, b, n);
    } else {
      SumGap(parts, n, b);
    }
  }

  lemma TotalInsert(parts: map<Peer, Domain>, q: Peer, d: Domain)
    requires Sound(parts) && WellFormed(d) && q !in parts
    ensures Total(parts[q := d]) == Total(parts) + LocalSize(d)
  {
    var b := Bound(parts[q := d].Keys);
    assert q in parts[q := d].Keys;
    forall p | p in parts ensures p < b {
      assert p in parts[q := d].Keys;
    }
    TotalIs(parts, b);
    SumInsert(parts, q, d, b);
  }

  /** The source keeps the total in a 32-bit `int`. */
  ghost predicate Complete(m: DomainMap)
    requires WellFormedMap(m) && m.parts != map[]
  {
    m.consistent || Int32(Total(m.parts)) == PartialSize(m.parts[First(m.parts.Keys)])
  }

  lemma Int32Adds(a: int, b: int)
    ensures Int32(Int32(a) + b) == Int32(a + b)
  {
  }

  method IsComplete(m: DomainMap) returns (complete: bool)
    requires WellFormedMap(m) && m.parts != map[]
    ensures complete == Complete(m)
  {
    if m.consistent {
      return true;
    }
    var totalSize := 0;
    var rest := m.parts.Keys;
    ghost var done := 0;
    while rest != {}
      invariant rest <= m.parts.Keys
      invariant forall p :: p in m.parts ==> (p < done <==> p !in rest)
      invariant totalSize == Int32(SumBelow(m.parts, done))
      decreases |rest|
    {
      var p := First(rest);
      SumGap(m.parts, done, p);
      Int32Adds(SumBelow(m.parts, done), LocalSize(m.parts[p]));
      totalSize := Int32(totalSize + LocalSize(m.parts[p]));
      RemoveOne(rest, p);
      rest := rest - {p};
      done := p + 1;
    }
    TotalIs(m.parts, done);
    complete := totalSize == PartialSize(m.parts[First(m.parts.Keys)]);
  }

  // ---- registering a local domain

  /** The domain a message describes, or nothing if the source rejects it. */
  function Decode(m: Message): seq<Domain>
    requires m.body.DomainPart?
    ensures |Decode(m)| <= 1
  {
    if m.md.representation == "unstructured" then [Unstructured(m.body.definition, m.md.globalSize)]
    else if m.md.representation == "structured" && |AddPartialSize(m.body.definition)| == 12 then
      [Structured(AddPartialSize(m.body.definition))]
    else []
  }

  /** What a domain message is read as, in its own terms. An unstructured domain has the message's
      global size, also as its partial size. A structured one has the partial size given as its twelfth
      number, or by default that of the whole grid. Nothing else is accepted. */
  lemma DecodedIs(m: Message)
    requires m.body.DomainPart?
    ensures var def := m.body.definition;
            if m.md.representation == "unstructured" then
              && Decode(m) == [Unstructured(def, m.md.globalSize)]
              && (WellFormed(Decode(m)[0]) ==>
                    && PartialSize(Decode(m)[0]) == m.md.globalSize && LocalSize(Decode(m)[0]) == |def|
                    && (m.md.globalSize >= 0 ==> GlobalSize(Decode(m)[0]) == m.md.globalSize))
            else if m.md.representation == "structured" && |def| == 12 then
              Decode(m) == [Structured(def)] && (WellFormed(Decode(m)[0]) ==> PartialSize(Decode(m)[0]) == def[11])
            else if m.md.representation == "structured" && |def| == 11 then
              && |Decode(m)| == 1 && Decode(m)[0].Structured? && Decode(m)[0].definition[..11] == def
              && (WellFormed(Decode(m)[0]) ==> PartialSize(Decode(m)[0]) == def[0] * def[1])
            else Decode(m) == []
  {
    var def := m.body.definition;
    if m.md.representation == "structured" && |def| == 11 {
      var d := Decode(m)[0];
      assert d.definition[..11] == def && d.definition[11] == Int32(def[0] * def[1]);
      if WellFormed(d) {
        WellFormedEntries(d.definition);
        assert d.definition[0] == def[0] && d.definition[1] == def[1];
        PositiveProduct(def[0], def[1]);
      }
    }
  }

  lemma PositiveProduct(a: int, b: int)
    requires a >= 1 && b >= 1
    ensures a * b >= 1
  {
  }

  /** State after a domain message: the first message of each peer counts. A rejected message still
      creates the map entry. */
  function AddDomain(s: State, m: Message): State
    requires m.body.DomainPart?
  {
    var dm := Lookup(s, m.md.name);
    if m.source in dm.parts then s
    else if Decode(m) == [] then s[m.md.name := dm]
    else s[m.md.name := dm.(parts := dm.parts[m.source := Decode(m)[0]])]
  }

  /** One part of a field, as `checkDomainConsistency` sees it. */
  datatype LocalPart = LocalPart(domain: string, source: Peer, values: nat, globalSize: nat)

  predicate Found(s: State, l: LocalPart) {
    l.domain in s && l.source in s[l.domain].parts
  }

  predicate AllFound(s: State, ls: seq<LocalPart>) {
    forall k :: 0 <= k < |ls| ==> Found(s, ls[k])
  }

  function DomainsOf(s: State, ls: seq<LocalPart>): (ds: seq<Domain>)
    requires AllFound(s, ls)
    ensures |ds| == |ls| && forall k :: 0 <= k < |ls| ==> ds[k] == s[ls[k].domain].parts[ls[k].source]
  {
    if ls == [] then []
    else
      var l := ls[|ls| - 1];
      assert Found(s, l);
      DomainsOf(s, ls[..|ls| - 1]) + [s[l.domain].parts[l.source]]
  }

  /** The cells written by the parts. */
  function CellsOf(s: State, ls: seq<LocalPart>): set<int>
    requires WellFormedState(s) && AllFound(s, ls)
  {
    P.AllCells(DomainsOf(s, ls))
  }

  /** The indices of the domain can be added to those collected before it. */
  predicate Collectable(d: Domain, values: nat, before: set<int>)
    requires WellFormed(d)
  {
    && values == DataSize(d)
    && (d.Structured? ==> |before| < GlobalSize(d) && Cells(d) !! before)
  }

  /** The indices of all parts can be collected, one part after the other. */
  ghost predicate Collected(s: State, ls: seq<LocalPart>)
    requires WellFormedState(s)
  {
    AllFound(s, ls) &&
    (ls == [] ||
    var init, l := ls[..|ls| - 1], ls[|ls| - 1];
    && Collected(s, init)
    && Collectable(s[l.domain].parts[l.source], l.values, CellsOf(s, init)))
  }

  /** The index count of `checkDomainConsistency` succeeds on these parts. */
  ghost predicate Consistent(s: State, ls: seq<LocalPart>)
    requires WellFormedState(s) && ls != []
  {
    Collected(s, ls) && |CellsOf(s, ls)| == ls[|ls| - 1].globalSize
  }

  /** The check raises no exception. */
  ghost predicate Passes(s: State, ls: seq<LocalPart>)
    requires WellFormedState(s) && ls != []
  {
    var name := ls[|ls| - 1].domain;
    name in s && (s[name].consistent || Consistent(s, ls))
  }

  /** State after a check: a check that passes sets the flag of the last part's domain. */
  ghost function Checked(s: State, ls: seq<LocalPart>): (s': State)
    requires WellFormedState(s) && ls != []
    ensures WellFormedState(s')
  {
    var name := ls[|ls| - 1].domain;
    if Passes(s, ls) then s[name := s[name].(consistent := true)] else s
  }

  lemma {:induction false} CollectedPrefix(s: State, ls: seq<LocalPart>, k: nat)
    requires WellFormedState(s) && k <= |ls| && Collected(s, ls)
    ensures Collected(s, ls[..k])
    decreases |ls|
  {
    if k < |ls| {
      var init := ls[..|ls| - 1];
      assert init[..k] == ls[..k];
      CollectedPrefix(s, init, k);
    } else {
      assert ls[..k] == ls;
    }
  }

  lemma DomainsSnoc(s: State, ls: seq<LocalPart>, l: LocalPart)
    requires AllFound(s, ls) && Found(s, l)
    ensures AllFound(s, ls + [l])
    ensures DomainsOf(s, ls + [l]) == DomainsOf(s, ls) + [s[l.domain].parts[l.source]]
  {
    assert (ls + [l])[..|ls|] == ls;
  }

  lemma CellsOfSnoc(s: State, ls: seq<LocalPart>, l: LocalPart)
    requires WellFormedState(s) && AllFound(s, ls) && Found(s, l)
    ensures AllFound(s, ls + [l])
    ensures CellsOf(s, ls + [l]) == CellsOf(s, ls) + Cells(s[l.domain].parts[l.source])
  {
    DomainsSnoc(s, ls, l);
    var ds := DomainsOf(s, ls + [l]);
    assert ds[..|ls|] == DomainsOf(s, ls);
  }

  lemma SumSnoc(s: State, ls: seq<LocalPart>, l: LocalPart)
    requires WellFormedState(s) && AllFound(s, ls) && Found(s, l)
    ensures AllFound(s, ls + [l])
    ensures P.SumLocal(DomainsOf(s, ls + [l])) == P.SumLocal(DomainsOf(s, ls)) + LocalSize(s[l.domain].parts[l.source])
  {
    DomainsSnoc(s, ls, l);
    var ds := DomainsOf(s, ls + [l]);
    assert ds[..|ls|] == DomainsOf(s, ls);
  }

  lemma CollectedSnoc(s: State, ls: seq<LocalPart>, l: LocalPart)
    requires WellFormedState(s) && Collected(s, ls)
    ensures Collected(s, ls + [l]) <==>
            Found(s, l) && Collectable(s[l.domain].parts[l.source], l.values, CellsOf(s, ls))
  {
    assert (ls + [l])[..|ls|] == ls;
    assert Collected(s, ls + [l]) ==> Found(s, (ls + [l])[|ls|]);
  }

  lemma NothingCollected(s: State)
    requires WellFormedState(s)
    ensures Collected(s, []) && AllFound(s, []) && CellsOf(s, []) == {}
  {
  }

  lemma CollectedNext(s: State, ls: seq<LocalPart>, k: nat)
    requires WellFormedState(s) && k < |ls| && Collected(s, ls[..k])
    ensures Collected(s, ls[..k + 1]) <==>
            Found(s, ls[k]) && Collectable(s[ls[k].domain].parts[ls[k].source], ls[k].values, CellsOf(s, ls[..k]))
    ensures AllFound(s, ls[..k])
    ensures Collected(s, ls[..k + 1]) ==>
              AllFound(s, ls[..k + 1]) &&
              CellsOf(s, ls[..k + 1]) == CellsOf(s, ls[..k]) + Cells(s[ls[k].domain].parts[ls[k].source])
    ensures !Collected(s, ls[..k + 1]) ==> !Collected(s, ls)
  {
    assert ls[..k + 1] == ls[..k] + [ls[k]];
    CollectedSnoc(s, ls[..k], ls[k]);
    if Collected(s, ls) {
      CollectedPrefix(s, ls, k + 1);
    }
    if Collected(s, ls[..k + 1]) {
      CellsOfSnoc(s, ls[..k], ls[k]);
    }
  }

  class Mappings {
    var mappings: State

    constructor ()
      ensures mappings == map[]
    {
      mappings := map[];
    }

    method Add(m: Message) returns (o: Outcome)
      requires m.body.DomainPart?
      modifies this
      ensures mappings == AddDomain(old(mappings), m)
      ensures o.Done? <==> m.source in Lookup(old(mappings), m.md.name).parts || Decode(m) != []
    {
      if m.md.name !in mappings {
        mappings := mappings[m.md.name := EMPTY_MAP];
      }
      var domainMap := mappings[m.md.name];
      if m.source in domainMap.parts {
        return Done;
      }
      if m.md.representation == "unstructured" {
        var d := Unstructured(m.body.definition, m.md.globalSize);
        mappings := mappings[m.md.name := domainMap.(parts := domainMap.parts[m.source := d])];
        return Done;
      }
      if m.md.representation == "structured" {
        var def := AddPartialSize(m.body.definition);
        if |def| != 12 {
          return Raised("assertion failed: definition size");
        }
        mappings := mappings[m.md.name := domainMap.(parts := domainMap.parts[m.source := Structured(def)])];
        return Done;
      }
      o := Raised("unsupported domain representation");
    }

    method CheckDomainConsistency(localDomains: seq<LocalPart>) returns (o: Outcome)
      requires WellFormedState(mappings) && localDomains != []
      modifies this
      ensures o.Done? <==> Passes(old(mappings), localDomains)
      ensures mappings == Checked(old(mappings), localDomains)
    {
      hide Collected, CellsOf, WellFormed, AllFound;
      var last := localDomains[|localDomains| - 1];
      var s := mappings;
      if last.domain !in mappings {
        return Raised("cannot find domain map");
      }
      if mappings[last.domain].consistent {
        assert mappings[last.domain].(consistent := true) == mappings[last.domain];
        return Done;
      }
      NothingCollected(s);
      assert localDomains[..0] == [];
      var globalIndices, k := {}, 0;
      while k < |localDomains|
        invariant 0 <= k <= |localDomains| && mappings == s
        invariant Collected(s, localDomains[..k]) && AllFound(s, localDomains[..k])
        invariant globalIndices == CellsOf(s, localDomains[..k])
      {
        var l := localDomains[k];
        CollectedNext(s, localDomains, k);
        if !Found(s, l) {
          return Raised("no such local domain");
        }
        o, globalIndices := CollectIndices(s[l.domain].parts[l.source], l.values, globalIndices);
        if o.Raised? {
          return;
        }
        k := k + 1;
      }
      assert localDomains[..k] == localDomains;
      if |globalIndices| != last.globalSize {
        return Raised("number of unique indices differs from the global size");
      }
      mappings := mappings[last.domain := mappings[last.domain].(consistent := true)];
      o := Done;
    }
  }

  // ---- a complete and consistent map partitions the grid

  /** Parts of different registered peers of the map. */
  ghost predicate DifferentParts(s: State, name: string, ls: seq<LocalPart>) {
    && name in s && AllFound(s, ls)
    && (forall k :: 0 <= k < |ls| ==> ls[k].domain == name)
    && (forall k, m :: 0 <= k < m < |ls| ==> ls[k].source != ls[m].source)
  }

  predicate Lists(ls: seq<LocalPart>, n: nat, p: Peer)
    requires n <= |ls|
  {
    exists k :: 0 <= k < n && ls[k].source == p
  }

  /** One part of every registered peer of the map. */
  ghost predicate OnePartEach(s: State, name: string, ls: seq<LocalPart>) {
    DifferentParts(s, name, ls) && forall p :: p in s[name].parts ==> Lists(ls, |ls|, p)
  }

  /** The part of the map that belongs to the first `n` local parts. */
  function SubMap(parts: map<Peer, Domain>, ls: seq<LocalPart>, n: nat): map<Peer, Domain>
    requires n <= |ls| && forall k :: 0 <= k < |ls| ==> ls[k].source in parts
  {
    if n == 0 then map[] else SubMap(parts, ls, n - 1)[ls[n - 1].source := parts[ls[n - 1].source]]
  }

  lemma {:induction false} SubMapKeys(parts: map<Peer, Domain>, ls: seq<LocalPart>, n: nat)
    requires n <= |ls| && forall k :: 0 <= k < |ls| ==> ls[k].source in parts
    ensures forall p :: p in SubMap(parts, ls, n) <==> Lists(ls, n, p)
    ensures forall p :: p in SubMap(parts, ls, n) ==> p in parts && SubMap(parts, ls, n)[p] == parts[p]
    decreases n
  {
    if n != 0 {
      SubMapKeys(parts, ls, n - 1);
    }
  }

  lemma SubMapSound(s: State, name: string, ls: seq<LocalPart>, n: nat)
    requires WellFormedState(s) && DifferentParts(s, name, ls) && n <= |ls|
    ensures (forall k :: 0 <= k < |ls| ==> ls[k].source in s[name].parts) && Sound(SubMap(s[name].parts, ls, n))
    ensures AllFound(s, ls[..n])
  {
    hide WellFormed;
    forall k | 0 <= k < |ls| ensures ls[k].source in s[name].parts {
      assert Found(s, ls[k]);
    }
    SubMapKeys(s[name].parts, ls, n);
  }

  lemma {:induction false} SubMapTotal(s: State, name: string, ls: seq<LocalPart>, n: nat)
    requires WellFormedState(s) && DifferentParts(s, name, ls) && n <= |ls|
    ensures Sound(SubMap(s[name].parts, ls, n))
    ensures AllFound(s, ls[..n]) && P.SumLocal(DomainsOf(s, ls[..n])) == Total(SubMap(s[name].parts, ls, n))
    decreases n
  {
    SubMapSound(s, name, ls, n);
    hide DifferentParts, Found, AllFound, WellFormed, Sound;
    if n == 0 {
      assert Sound(map[]) && Bounds({}, 0);
      TotalIs(map[], 0);
    } else {
      SubMapTotal(s, name, ls, n - 1);
      SubMapStep(s, name, ls, n - 1);
    }
  }

  lemma SubMapFresh(s: State, name: string, ls: seq<LocalPart>, n: nat)
    requires WellFormedState(s) && DifferentParts(s, name, ls) && n < |ls|
    ensures ls[n].source in s[name].parts && ls[n].source !in SubMap(s[name].parts, ls, n)
    ensures WellFormed(s[name].parts[ls[n].source]) && Found(s, ls[n]) && ls[n].domain == name
  {
    SubMapKeys(s[name].parts, ls, n);
    assert Found(s, ls[n]);
  }

  lemma SubMapStep(s: State, name: string, ls: seq<LocalPart>, n: nat)
    requires WellFormedState(s) && DifferentParts(s, name, ls) && n < |ls|
    requires Sound(SubMap(s[name].parts, ls, n))
    requires AllFound(s, ls[..n]) && P.SumLocal(DomainsOf(s, ls[..n])) == Total(SubMap(s[name].parts, ls, n))
    ensures Sound(SubMap(s[name].parts, ls, n + 1))
    ensures AllFound(s, ls[..n + 1]) && P.SumLocal(DomainsOf(s, ls[..n + 1])) == Total(SubMap(s[name].parts, ls, n + 1))
  {
    hide P.SumLocal, SumBelow, DomainsOf, Total;
    SubMapFresh(s, name, ls, n);
    TotalInsert(SubMap(s[name].parts, ls, n), ls[n].source, s[name].parts[ls[n].source]);
    assert ls[..n + 1] == ls[..n] + [ls[n]];
    SumSnoc(s, ls[..n], ls[n]);
  }

  lemma SubMapAll(s: State, name: string, ls: seq<LocalPart>)
    requires WellFormedState(s) && OnePartEach(s, name, ls)
    ensures (forall k :: 0 <= k < |ls| ==> ls[k].source in s[name].parts) && SubMap(s[name].parts, ls, |ls|) == s[name].parts
  {
    SubMapSound(s, name, ls, |ls|);
    SubMapKeys(s[name].parts, ls, |ls|);
    hide Found, AllFound, WellFormed, Sound, WellFormedState, SubMap, Lists, DifferentParts;
  }

  lemma SumIsTotal(s: State, name: string, ls: seq<LocalPart>)
    requires WellFormedState(s) && OnePartEach(s, name, ls)
    ensures P.SumLocal(DomainsOf(s, ls)) == Total(s[name].parts)
  {
    assert ls[..|ls|] == ls;
    SubMapTotal(s, name, ls, |ls|);
    SubMapAll(s, name, ls);
  }

  /** If the map is complete by size for the whole grid and the index count succeeds on one part of
      each registered peer, every cell of the grid is written by exactly one value of one part. */
  lemma CompleteAndConsistent(s: State, name: string, ls: seq<LocalPart>)
    requires WellFormedState(s) && ls != [] && OnePartEach(s, name, ls)
    requires P.SameGrid(DomainsOf(s, ls), ls[|ls| - 1].globalSize)
    requires Found(s, ls[0]) && Total(s[name].parts) <= INT_MAX && !s[name].consistent && Complete(s[name])
    requires PartialSize(s[name].parts[First(s[name].parts.Keys)]) == ls[|ls| - 1].globalSize
    requires Consistent(s, ls)
    ensures forall c :: 0 <= c < ls[|ls| - 1].globalSize ==> P.OwnedOnce(DomainsOf(s, ls), c)
  {
    SumIsTotal(s, name, ls);
    P.ConsistencyImpliesPartition(DomainsOf(s, ls), ls[|ls| - 1].globalSize);
  }
}
