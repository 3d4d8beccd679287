/** The server's mask aggregator: it stores partial masks per field and builds the global bitmask
    when as many parts have arrived as the domain map has peers. */
module MaskAssembly {
  import opened Wrappers
  import opened Bits
  import opened Domains
  import opened Messages
  import opened MaskFormat
  import opened MaskEncode
  import opened MaskRoundTrip
  import M = Mappings

  type Key = (string, int)

  datatype State = State(messages: map<Metadata, seq<Message>>, bitmasks: map<Key, seq<byte>>)

  const EMPTY := State(map[], map[])

  function KeyOf(md: Metadata): Key {
    (md.domain, md.level)
  }

  function Pending(s: State, md: Metadata): seq<Message> {
    if md in s.messages then s.messages[md] else []
  }

  // ---- what the parts of a field assemble to

  /** A stored mask message. Its payload may be one that the source rejects. */
  ghost predicate IsPart(m: Message, md: Metadata) {
    m.md == md && m.body.MaskPart? && Defined(m.body.payload)
  }

  /** The part can be scattered: its peer has registered a matching structured domain, and its payload
      decodes to as many values. */
  ghost predicate Fits(dm: M.DomainMap, m: Message)
    requires M.WellFormedMap(dm) && IsPart(m, m.md)
  {
    m.source in dm.parts && m.md.globalSize >= 0
    && CanScatterMask(dm.parts[m.source], m.body.payload, m.md.globalSize)
  }

  /** One cell after a structured domain has been scattered over it. */
  function CellWith<T>(d: Domain, local: seq<T>, before: T, c: nat): T
    requires WellFormed(d) && d.Structured?
  {
    CellUpTo(GridOf(d.definition), local, before, c, |local|)
  }

  function ScatterOver<T>(d: Domain, local: seq<T>, before: seq<T>): (after: seq<T>)
    requires WellFormed(d) && d.Structured?
    ensures |after| == |before|
    ensures forall c: nat :: c < |before| ==> after[c] == CellWith(d, local, before[c], c)
  {
    seq(|before|, (c: nat) requires c < |before| => CellWith(d, local, before[c], c))
  }

  /** The relation between the cells before and after scattering determines the result. */
  lemma ScatteredIs<T>(d: Domain, local: seq<T>, before: seq<T>, after: seq<T>)
    requires WellFormed(d) && d.Structured? && |before| == GlobalSize(d)
    requires Scattered(d, local, before, after)
    ensures after == ScatterOver(d, local, before)
  {
    forall c: nat | c < |before| ensures after[c] == CellWith(d, local, before[c], c) {
      assert CellAfter(d, local, before[c], c, after[c]);
      var o := OriginOf(GridOf(d.definition), c);
      if o.At? && 0 <= o.pos < |local| {
        assert Writes(d, o.pos, c);
        assert forall q :: o.pos < q < |local| ==> !Writes(d, q, c);
      } else {
        assert forall p :: 0 <= p < |local| ==> !Writes(d, p, c);
      }
    }
  }

  function AllMasked(n: nat): (cells: seq<bool>)
    ensures |cells| == n && forall c :: 0 <= c < n ==> !cells[c]
  {
    seq(n, _ => false)
  }

  ghost predicate AllFit(dm: M.DomainMap, md: Metadata, parts: seq<Message>)
    requires M.WellFormedMap(dm)
  {
    forall k :: 0 <= k < |parts| ==> IsPart(parts[k], md) && Fits(dm, parts[k])
  }

  /** The global mask: every cell false, then the parts scattered in order. */
  ghost function Assembled(dm: M.DomainMap, md: Metadata, parts: seq<Message>): (cells: seq<bool>)
    requires M.WellFormedMap(dm) && md.globalSize >= 0 && AllFit(dm, md, parts)
    ensures |cells| == md.globalSize
  {
    if parts == [] then AllMasked(md.globalSize)
    else
      var init, m := parts[..|parts| - 1], parts[|parts| - 1];
      assert Fits(dm, m);
      ScatterOver(dm.parts[m.source], Values(m.body.payload), Assembled(dm, md, init))
  }

  lemma AssembledSnoc(dm: M.DomainMap, md: Metadata, init: seq<Message>, m: Message)
    requires M.WellFormedMap(dm) && md.globalSize >= 0 && AllFit(dm, md, init)
    requires IsPart(m, md) && Fits(dm, m)
    ensures AllFit(dm, md, init + [m])
    ensures Assembled(dm, md, init + [m])
            == ScatterOver(dm.parts[m.source], Values(m.body.payload), Assembled(dm, md, init))
  {
    hide CellWith, Readable, M.WellFormedMap;
    assert (init + [m])[..|init|] == init;
  }

  // ---- one mask message

  /** Enough parts of the field are stored, given the registered domains. */
  ghost predicate PartsArrived(maps: M.State, md: Metadata, parts: seq<Message>)
    requires M.WellFormedState(maps) && md.domain in maps && maps[md.domain].parts != map[]
  {
    M.Complete(maps[md.domain]) && |parts| == |maps[md.domain].parts|
  }

  /** What the source demands of the registered domains: an entry is never empty. */
  ghost predicate Usable(maps: M.State) {
    M.WellFormedState(maps) && forall name :: name in maps ==> maps[name].parts != map[]
  }

  ghost predicate Stored(s: State) {
    forall md :: md in s.messages ==> forall k :: 0 <= k < |s.messages[md]| ==> IsPart(s.messages[md][k], md)
  }

  /** The mask message is stored, and the field is built if it was the last part. */
  ghost predicate Builds(maps: M.State, s: State, m: Message)
    requires Usable(maps)
  {
    m.md.domain in maps && PartsArrived(maps, m.md, Pending(s, m.md) + [m])
  }

  ghost predicate Raises(maps: M.State, s: State, m: Message)
    requires Usable(maps) && Stored(s) && IsPart(m, m.md)
  {
    || m.md.domain !in maps
    || (Builds(maps, s, m) && !AllFit(maps[m.md.domain], m.md, Pending(s, m.md) + [m]))
  }

  function WithPart(s: State, m: Message): State {
    s.(messages := s.messages[m.md := Pending(s, m.md) + [m]])
  }

  ghost function AddMask(maps: M.State, s: State, m: Message): State
    requires Usable(maps) && Stored(s) && IsPart(m, m.md) && 1 <= m.md.globalSize < MAX_SIZE
    requires !Raises(maps, s, m)
  {
    if Builds(maps, s, m) then
      State(s.messages[m.md := []],
            s.bitmasks[KeyOf(m.md) :=
              EncodedRunLength(Assembled(maps[m.md.domain], m.md, Pending(s, m.md) + [m]))])
    else WithPart(s, m)
  }

  /** A mask that completes its field replaces the bitmask of its domain and level and no other; any
      other mask leaves all bitmasks alone. */
  lemma BitmasksAfter(maps: M.State, s: State, m: Message, dom: string, lev: int)
    requires Usable(maps) && Stored(s) && IsPart(m, m.md) && 1 <= m.md.globalSize < MAX_SIZE
    requires !Raises(maps, s, m)
    ensures var s' := AddMask(maps, s, m);
            if Builds(maps, s, m) && dom == m.md.domain && lev == m.md.level then
              && (dom, lev) in s'.bitmasks
              && s'.bitmasks[(dom, lev)] == EncodedRunLength(Assembled(maps[dom], m.md, Pending(s, m.md) + [m]))
            else
              && ((dom, lev) in s'.bitmasks <==> (dom, lev) in s.bitmasks)
              && ((dom, lev) in s.bitmasks ==> s'.bitmasks[(dom, lev)] == s.bitmasks[(dom, lev)])
  {
    hide Builds, EncodedRunLength, Assembled, AllFit, Stored;
  }

  lemma StoredWith(s: State, m: Message)
    requires Stored(s) && IsPart(m, m.md)
    ensures Stored(WithPart(s, m))
  {
  }

  lemma OverwrittenTwice<K, V>(m: map<K, V>, k: K, v: V, w: V)
    ensures m[k := v][k := w] == m[k := w]
  {
  }

  class MaskStore {
    var messages: map<Metadata, seq<Message>>
    var bitmasks: map<Key, seq<byte>>

    ghost function Contents(): State
      reads this
    {
      State(messages, bitmasks)
    }

    constructor ()
      ensures Contents() == EMPTY
    {
      messages, bitmasks := map[], map[];
    }

    /** Stores a part and, when it is the last, builds the bitmask and forgets the parts. */
    method Add(m: Message, mappings: M.Mappings) returns (o: Outcome)
      requires Usable(mappings.mappings) && Stored(Contents())
      requires IsPart(m, m.md) && 1 <= m.md.globalSize < MAX_SIZE
      modifies this
      ensures o.Raised? <==> old(Raises(mappings.mappings, Contents(), m))
      ensures o.Done? ==> Contents() == old(AddMask(mappings.mappings, Contents(), m))
      ensures o.Raised? ==> Contents() == old(WithPart(Contents(), m))
    {
      hide EncodedRunLength, M.Complete, Fits, Assembled, AllFit;
      ghost var maps, before := mappings.mappings, Contents();
      ghost var parts := Pending(before, m.md) + [m];
      messages := messages[m.md := (if m.md in messages then messages[m.md] else []) + [m]];
      assert messages[m.md] == parts && Contents() == WithPart(before, m);
      hide Stored, Usable, Readable;
      StoredWith(before, m);
      if m.md.domain !in mappings.mappings {
        return Raised("cannot find domain map");
      }
      var domainMap := mappings.mappings[m.md.domain];
      var complete := M.IsComplete(domainMap);
      if complete && |messages[m.md]| == |domainMap.parts| {
        assert Builds(maps, before, m);
        o := CreateBitmask(m, domainMap);
        OverwrittenTwice(before.messages, m.md, parts, []);
      } else {
        assert !Builds(maps, before, m);
        o := Done;
      }
    }

    method CreateBitmask(m: Message, domainMap: M.DomainMap) returns (o: Outcome)
      requires M.WellFormedMap(domainMap) && 1 <= m.md.globalSize < MAX_SIZE
      requires m.md in messages && forall k :: 0 <= k < |messages[m.md]| ==> IsPart(messages[m.md][k], m.md)
      modifies this
      ensures o.Done? <==> old(AllFit(domainMap, m.md, messages[m.md]))
      ensures o.Done? ==>
                && messages == old(messages)[m.md := []]
                && bitmasks == old(bitmasks)[(m.md.domain, m.md.level) :=
                                 EncodedRunLength(Assembled(domainMap, m.md, old(messages)[m.md]))]
      ensures o.Raised? ==> Contents() == old(Contents())
    {
      hide EncodedRunLength, Fits, Assembled, AllFit;
      var encoded;
      o, encoded := EncodedGlobalMask(m.md, messages[m.md], domainMap);
      if o.Done? {
        bitmasks := bitmasks[KeyOf(m.md) := encoded];
        messages := messages[m.md := []];
      }
    }
  }

  /** Scatters one part over the bitmask. */
  method ScatterPart(dm: M.DomainMap, ghost md: Metadata, ghost init: seq<Message>, part: Message, bitmask: array<bool>)
    returns (o: Outcome)
    requires M.WellFormedMap(dm) && md.globalSize >= 0 && AllFit(dm, md, init) && IsPart(part, md)
    requires bitmask[..] == Assembled(dm, md, init)
    modifies bitmask
    ensures o.Done? <==> Fits(dm, part)
    ensures o.Done? ==> AllFit(dm, md, init + [part]) && bitmask[..] == Assembled(dm, md, init + [part])
  {
    if part.source !in dm.parts {
      return Raised("no local domain for this peer");
    }
    var d := dm.parts[part.source];
    ghost var before := bitmask[..];
    assert WellFormed(d);
    o := ToBitmask(d, part.body.payload, bitmask);
    if o.Done? {
      ScatteredIs(d, Values(part.body.payload), before, bitmask[..]);
      AssembledSnoc(dm, md, init, part);
    }
  }

  /** The loop of `createBitmask` and the encoding of its result. */
  method EncodedGlobalMask(md: Metadata, parts: seq<Message>, dm: M.DomainMap) returns (o: Outcome, encoded: seq<byte>)
    requires M.WellFormedMap(dm) && 1 <= md.globalSize < MAX_SIZE
    requires forall k :: 0 <= k < |parts| ==> IsPart(parts[k], md)
    ensures o.Done? <==> AllFit(dm, md, parts)
    ensures o.Done? ==> encoded == EncodedRunLength(Assembled(dm, md, parts))
  {
    hide Readable, Values, EncodedRunLength;
    encoded := [];
    var bitmask := new bool[md.globalSize](_ => false);
    assert bitmask[..] == Assembled(dm, md, []);
    hide Assembled, IsPart, Fits;
    var k := 0;
    while k < |parts|
      invariant 0 <= k <= |parts|
      invariant AllFit(dm, md, parts[..k])
      invariant bitmask[..] == Assembled(dm, md, parts[..k])
    {
      o := ScatterPart(dm, md, parts[..k], parts[k], bitmask);
      if o.Raised? {
        return;
      }
      assert parts[..k + 1] == parts[..k] + [parts[k]];
      k := k + 1;
    }
    assert parts[..k] == parts;
    encoded := EncodeMaskRunLength(bitmask[..]);
    o := Done;
  }
}
