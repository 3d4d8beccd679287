/** What the server has built after any history of messages in which every client describes its
    domain before it sends masks. */
module FieldAssembly {
  import opened Bits
  import opened Domains
  import opened MaskRoundTrip
  import opened Messages
  import opened MaskFormat
  import opened Rounds
  import S = Sets
  import opened Dispatcher
  import A = MaskAssembly
  import P = Parametrization
  import M = Mappings

  /** What the clients agree on: the domains they describe, by domain name and peer, and the values
      of parametrization keys. */
  datatype Layout = Layout(domains: map<string, map<Peer, Domain>>, params: P.Data)

  ghost predicate SoundLayout(layout: Layout) {
    forall name :: name in layout.domains ==> M.Sound(layout.domains[name])
  }

  function Parts(layout: Layout, name: string): map<Peer, Domain> {
    if name in layout.domains then layout.domains[name] else map[]
  }

  /** All domains are rectangles of the same grid, and all declare their total local size as the size
      of what is aggregated. */
  ghost predicate Aggregable(parts: map<Peer, Domain>, size: int)
    requires M.Sound(parts)
  {
    forall p :: p in parts ==>
      parts[p].Structured? && GlobalSize(parts[p]) == size && PartialSize(parts[p]) == M.Total(parts) <= size
  }

  /** The message comes from a peer of the layout and agrees with what the layout says of it. */
  ghost predicate Fitting(layout: Layout, m: Message)
    requires SoundLayout(layout)
  {
    match m.body
    case DomainPart(_) =>
      m.source in Parts(layout, m.md.name) && M.Decode(m) == [layout.domains[m.md.name][m.source]]
    case MaskPart(payload) =>
      && m.source in Parts(layout, m.md.domain) && A.IsPart(m, m.md)
      && Aggregable(layout.domains[m.md.domain], m.md.globalSize)
      && Readable(payload) && |Values(payload)| == DataSize(layout.domains[m.md.domain][m.source])
    case Parametrization(u) => !P.Malformed(u) && P.Agrees(layout.params, P.Entries(u))
    case Other(_, accepted) => accepted
    case _ => true
  }

  /** The peers that have described their domain of this name. */
  function Registered(h: seq<Message>, name: string): set<Peer> {
    if h == [] then {}
    else
      var m := h[|h| - 1];
      Registered(h[..|h| - 1], name) + if m.body.DomainPart? && m.md.name == name then {m.source} else {}
  }

  lemma RegisteredSnoc(h: seq<Message>, m: Message, name: string)
    ensures Registered(h + [m], name) ==
            Registered(h, name) + if m.body.DomainPart? && m.md.name == name then {m.source} else {}
  {
    assert (h + [m])[..|h|] == h;
  }

  /** The message may follow the history: a mask comes after its peer's domain. */
  ghost predicate Follows(layout: Layout, h: seq<Message>, m: Message)
    requires SoundLayout(layout)
  {
    Fitting(layout, m) && (m.body.MaskPart? ==> m.source in Registered(h, m.md.domain))
  }

  ghost predicate WellOrdered(layout: Layout, h: seq<Message>)
    requires SoundLayout(layout)
  {
    h == [] || (WellOrdered(layout, h[..|h| - 1]) && Follows(layout, h[..|h| - 1], h[|h| - 1]))
  }

  lemma WellOrderedSnoc(layout: Layout, h: seq<Message>, m: Message)
    requires SoundLayout(layout)
    ensures WellOrdered(layout, h + [m]) <==> WellOrdered(layout, h) && Follows(layout, h, m)
  {
    assert (h + [m])[..|h|] == h;
  }

  // ---- when a map of domains is complete

  function Restricted(parts: map<Peer, Domain>, peers: set<Peer>): map<Peer, Domain> {
    map p | p in parts && p in peers :: parts[p]
  }

  lemma LocalSizePositive(d: Domain)
    requires WellFormed(d) && d.Structured?
    ensures LocalSize(d) >= 1
  {
    var g := GridOf(d.definition);
    ProductMono(1, g.ni, g.nj);
  }

  lemma {:induction false} SumRestricted(parts: map<Peer, Domain>, peers: set<Peer>, n: nat)
    requires M.Sound(parts) && M.Sound(Restricted(parts, peers))
    requires forall p :: p in parts ==> LocalSize(parts[p]) >= 1
    ensures M.SumBelow(Restricted(parts, peers), n) <= M.SumBelow(parts, n)
    ensures (exists p :: p in parts && p !in peers && p < n) ==>
              M.SumBelow(Restricted(parts, peers), n) < M.SumBelow(parts, n)
    decreases n
  {
    if n != 0 {
      SumRestricted(parts, peers, n - 1);
    }
  }

  lemma TotalRestricted(parts: map<Peer, Domain>, peers: set<Peer>)
    requires M.Sound(parts) && forall p :: p in parts ==> LocalSize(parts[p]) >= 1
    ensures M.Sound(Restricted(parts, peers))
    ensures M.Total(Restricted(parts, peers)) <= M.Total(parts)
    ensures M.Total(Restricted(parts, peers)) == M.Total(parts) <==> parts.Keys <= peers
  {
    hide LocalSize, WellFormed;
    var n := M.Bound(parts.Keys);
    M.TotalIs(parts, n);
    M.TotalIs(Restricted(parts, peers), n);
    SumRestricted(parts, peers, n);
    if parts.Keys <= peers {
      assert Restricted(parts, peers) == parts;
    } else {
      assert exists p :: p in parts && p !in peers;
      var p :| p in parts && p !in peers;
      assert p in parts.Keys && p < n;
    }
  }

  /** Declared sizes add up to the declared total exactly when every peer has registered. */
  lemma CompleteWhenAll(parts: map<Peer, Domain>, size: int, peers: set<Peer>)
    requires M.Sound(parts) && Aggregable(parts, size)
    requires Restricted(parts, peers) != map[]
    ensures M.WellFormedMap(M.DomainMap(Restricted(parts, peers), false))
    ensures M.Complete(M.DomainMap(Restricted(parts, peers), false)) <==> parts.Keys <= peers
  {
    hide LocalSize, WellFormed, M.Total, PartialSize, GlobalSize;
    var some := Restricted(parts, peers);
    var f := S.First(some.Keys);
    assert f in parts && some[f] == parts[f];
    forall p | p in parts ensures LocalSize(parts[p]) >= 1 { LocalSizePositive(parts[p]); }
    TotalRestricted(parts, peers);
    SizeBounded(parts[f]);
  }

  lemma SizeBounded(d: Domain)
    requires WellFormed(d)
    ensures GlobalSize(d) <= INT_MAX && (d.Structured? ==> GlobalSize(d) >= 1)
  {
    if d.Structured? {
      var g := GridOf(d.definition);
      ProductMono(1, g.niGlobal, g.njGlobal);
    }
  }

  // ---- what the server holds

  /** The registry holds the domains of the peers that have described theirs. */
  ghost predicate MapsAre(layout: Layout, h: seq<Message>, maps: M.State) {
    && (forall name :: name in maps ==> maps[name].parts != map[])
    && (forall name :: M.Lookup(maps, name) == M.DomainMap(Restricted(Parts(layout, name), Registered(h, name)), false))
  }

  lemma {:induction false} RegisteredInLayout(layout: Layout, h: seq<Message>, name: string)
    requires SoundLayout(layout) && WellOrdered(layout, h)
    ensures Registered(h, name) <= Parts(layout, name).Keys
    decreases |h|
  {
    if h != [] {
      var init, m := h[..|h| - 1], h[|h| - 1];
      RegisteredInLayout(layout, init, name);
      assert Follows(layout, init, m);
    }
  }

  lemma MapsStep(layout: Layout, h: seq<Message>, maps: M.State, m: Message)
    requires SoundLayout(layout) && MapsAre(layout, h, maps) && Fitting(layout, m)
    ensures m.body.DomainPart? ==> MapsAre(layout, h + [m], M.AddDomain(maps, m))
    ensures !m.body.DomainPart? ==> MapsAre(layout, h + [m], maps)
  {
    hide Registered, M.Decode;
    var maps' := if m.body.DomainPart? then M.AddDomain(maps, m) else maps;
    forall name
      ensures M.Lookup(maps', name) == M.DomainMap(Restricted(Parts(layout, name), Registered(h + [m], name)), false)
    {
      RegisteredSnoc(h, m, name);
      if m.body.DomainPart? && m.md.name == name {
        RestrictedWith(Parts(layout, name), Registered(h, name), m.source);
      } else {
        assert Registered(h + [m], name) == Registered(h, name);
      }
    }
    if m.body.DomainPart? {
      assert m.source in M.Lookup(maps', m.md.name).parts;
    }
  }

  lemma RestrictedWith(parts: map<Peer, Domain>, peers: set<Peer>, p: Peer)
    requires p in parts
    ensures Restricted(parts, peers + {p}) ==
            if p in Restricted(parts, peers) then Restricted(parts, peers) else Restricted(parts, peers)[p := parts[p]]
  {
    if p in peers {
      assert peers + {p} == peers;
    }
  }

  /** The parts of every build of the field, build by build. */
  function PartsOf(built: seq<Build>, md: Metadata): seq<seq<Message>> {
    if built == [] then []
    else
      var b := built[|built| - 1];
      PartsOf(built[..|built| - 1], md) + if b.md == md then [b.parts] else []
  }

  lemma PartsOfSnoc(built: seq<Build>, b: Build, md: Metadata)
    ensures PartsOf(built + [b], md) == PartsOf(built, md) + if b.md == md then [b.parts] else []
  {
    assert (built + [b])[..|built|] == built;
  }

  /** The builds of the field. */
  function BuildsOf(built: seq<Build>, md: Metadata): seq<Build> {
    if built == [] then []
    else
      var b := built[|built| - 1];
      BuildsOf(built[..|built| - 1], md) + if b.md == md then [b] else []
  }

  lemma {:induction false} BuildsHaveParts(built: seq<Build>, md: Metadata)
    ensures |BuildsOf(built, md)| == |PartsOf(built, md)|
    ensures forall k :: 0 <= k < |BuildsOf(built, md)| ==>
              var b := BuildsOf(built, md)[k]; b in built && b.md == md && b.parts == PartsOf(built, md)[k]
    decreases |built|
  {
    if built != [] {
      BuildsHaveParts(built[..|built| - 1], md);
    }
  }

  /** The parts of the field that the server has built and those it still holds. */
  function ChunksOf(s: Server, md: Metadata): Chunks {
    Chunks(PartsOf(s.built, md), A.Pending(s.masks, md))
  }

  function Full(layout: Layout, name: string): M.DomainMap {
    M.DomainMap(Parts(layout, name), false)
  }

  /** The build scattered its parts over the domains of the layout. */
  ghost predicate BuildIs(layout: Layout, b: Build)
    requires SoundLayout(layout)
  {
    && b.md.domain in layout.domains && 1 <= b.md.globalSize <= INT_MAX
    && A.AllFit(Full(layout, b.md.domain), b.md, b.parts)
    && b.cells == A.Assembled(Full(layout, b.md.domain), b.md, b.parts)
  }

  /** The last build for the key, if any. */
  function Latest(built: seq<Build>, key: A.Key): (r: seq<Build>)
    ensures |r| <= 1 && (r != [] ==> r[0] in built && A.KeyOf(r[0].md) == key)
  {
    if built == [] then []
    else if A.KeyOf(built[|built| - 1].md) == key then [built[|built| - 1]]
    else Latest(built[..|built| - 1], key)
  }

  /** The last build for a domain and level, written out. */
  predicate LastFor(built: seq<Build>, k: nat, dom: string, lev: int)
    requires k < |built|
  {
    && built[k].md.domain == dom && built[k].md.level == lev
    && forall l :: k < l < |built| ==> !(built[l].md.domain == dom && built[l].md.level == lev)
  }

  lemma LastStays(built: seq<Build>, k: nat, dom: string, lev: int)
    requires k < |built| - 1 && !(built[|built| - 1].md.domain == dom && built[|built| - 1].md.level == lev)
    ensures LastFor(built, k, dom, lev) <==> LastFor(built[..|built| - 1], k, dom, lev)
  {
    var init := built[..|built| - 1];
    assert forall l :: 0 <= l < |init| ==> init[l] == built[l];
  }

  lemma {:induction false} LatestIsLast(built: seq<Build>, dom: string, lev: int)
    ensures Latest(built, (dom, lev)) == [] <==>
            forall k :: 0 <= k < |built| ==> !(built[k].md.domain == dom && built[k].md.level == lev)
    ensures forall k :: 0 <= k < |built| && LastFor(built, k, dom, lev) ==> Latest(built, (dom, lev)) == [built[k]]
    ensures Latest(built, (dom, lev)) != [] ==> exists k :: 0 <= k < |built| && LastFor(built, k, dom, lev)
    decreases |built|
  {
    if built != [] {
      var init, n := built[..|built| - 1], |built| - 1;
      assert A.KeyOf(built[n].md) == (dom, lev) <==> built[n].md.domain == dom && built[n].md.level == lev;
      if built[n].md.domain == dom && built[n].md.level == lev {
        assert LastFor(built, n, dom, lev);
        forall k | 0 <= k < n ensures !LastFor(built, k, dom, lev) { }
      } else {
        hide LastFor;
        LatestIsLast(init, dom, lev);
        assert Latest(built, (dom, lev)) == Latest(init, (dom, lev));
        hide Latest;
        forall k: nat | k < n ensures LastFor(built, k, dom, lev) <==> LastFor(init, k, dom, lev) {
          LastStays(built, k, dom, lev);
        }
        NotForLast(built, dom, lev);
      }
    }
  }

  lemma NotForLast(built: seq<Build>, dom: string, lev: int)
    requires built != [] && !(built[|built| - 1].md.domain == dom && built[|built| - 1].md.level == lev)
    ensures !LastFor(built, |built| - 1, dom, lev)
  {
  }

  lemma LatestSnoc(built: seq<Build>, b: Build, key: A.Key)
    ensures Latest(built + [b], key) == if A.KeyOf(b.md) == key then [b] else Latest(built, key)
  {
    assert (built + [b])[..|built|] == built;
  }

  ghost predicate BuildsAre(layout: Layout, built: seq<Build>)
    requires SoundLayout(layout)
  {
    forall b :: b in built ==> BuildIs(layout, b)
  }

  /** Every bitmask is the encoding of the latest build with its key. */
  ghost predicate BitmasksAre(layout: Layout, built: seq<Build>, bitmasks: map<A.Key, seq<byte>>)
    requires SoundLayout(layout) && BuildsAre(layout, built)
  {
    forall key ::
      && (key in bitmasks <==> Latest(built, key) != [])
      && (key in bitmasks ==> bitmasks[key] == EncodedRunLength(Latest(built, key)[0].cells))
  }

  /** A stored part is one of the field, from a peer that has described its domain. */
  ghost predicate PartIs(layout: Layout, h: seq<Message>, md: Metadata, part: Message)
    requires SoundLayout(layout)
  {
    part.md == md && part.body.MaskPart? && Follows(layout, h, part)
  }

  ghost predicate PendingAre(layout: Layout, h: seq<Message>, masks: A.State)
    requires SoundLayout(layout)
  {
    forall md, part :: part in A.Pending(masks, md) ==> PartIs(layout, h, md, part)
  }

  ghost predicate Holds(layout: Layout, h: seq<Message>, s: Server)
    requires SoundLayout(layout)
  {
    && Sane(s) && P.Within(layout.params, s.params) && MapsAre(layout, h, s.maps) && PendingAre(layout, h, s.masks)
    && BuildsAre(layout, s.built) && BitmasksAre(layout, s.built, s.masks.bitmasks)
  }

  // ---- one more message

  lemma FitsFull(layout: Layout, part: Message)
    requires SoundLayout(layout) && part.body.MaskPart? && Fitting(layout, part)
    ensures M.WellFormedMap(Full(layout, part.md.domain)) && A.Fits(Full(layout, part.md.domain), part)
    ensures 1 <= part.md.globalSize <= INT_MAX
  {
    hide M.Total, Values, Readable;
    SizeBounded(layout.domains[part.md.domain][part.source]);
  }

  lemma RestrictedAll(parts: map<Peer, Domain>, peers: set<Peer>)
    requires parts.Keys <= peers
    ensures Restricted(parts, peers) == parts
  {
  }

  /** A mask raises no exception, and completes its field exactly when every peer of the domain has
      described its part and as many masks are there. */
  lemma MaskBuilds(layout: Layout, h: seq<Message>, s: Server, m: Message)
    requires SoundLayout(layout) && Holds(layout, h, s) && m.body.MaskPart? && Follows(layout, h, m)
    ensures A.IsPart(m, m.md) && !A.Raises(s.maps, s.masks, m)
    ensures var parts, before := Parts(layout, m.md.domain), A.Pending(s.masks, m.md);
            && (A.Builds(s.maps, s.masks, m) <==>
                  parts.Keys <= Registered(h, m.md.domain) && |before| + 1 == |parts|)
            && (A.Builds(s.maps, s.masks, m) ==>
                  && s.maps[m.md.domain] == Full(layout, m.md.domain)
                  && M.WellFormedMap(Full(layout, m.md.domain))
                  && A.AllFit(Full(layout, m.md.domain), m.md, before + [m]))
  {
    hide M.Complete, A.Fits, Registered, Aggregable;
    var dom := m.md.domain;
    var parts, peers := Parts(layout, dom), Registered(h, dom);
    assert M.Lookup(s.maps, dom) == M.DomainMap(Restricted(parts, peers), false);
    assert m.source in Restricted(parts, peers);
    CompleteWhenAll(parts, m.md.globalSize, peers);
    if parts.Keys <= peers {
      RestrictedAll(parts, peers);
    }
    AllFitFull(layout, h, s, m);
  }

  lemma AllFitFull(layout: Layout, h: seq<Message>, s: Server, m: Message)
    requires SoundLayout(layout) && Holds(layout, h, s) && m.body.MaskPart? && Follows(layout, h, m)
    ensures M.WellFormedMap(Full(layout, m.md.domain))
    ensures A.AllFit(Full(layout, m.md.domain), m.md, A.Pending(s.masks, m.md) + [m])
  {
    hide A.Fits, Readable;
    var parts := A.Pending(s.masks, m.md) + [m];
    forall k | 0 <= k < |parts| ensures A.IsPart(parts[k], m.md) && A.Fits(Full(layout, m.md.domain), parts[k]) {
      if k < |parts| - 1 {
        assert PartIs(layout, h, m.md, parts[k]);
      }
      FitsFull(layout, parts[k]);
    }
  }

  lemma PendingStep(layout: Layout, h: seq<Message>, masks: A.State, m: Message, masks': A.State)
    requires SoundLayout(layout) && PendingAre(layout, h, masks) && Follows(layout, h, m)
    requires masks' == masks || (m.body.MaskPart? &&
               (masks'.messages == masks.messages[m.md := []] || masks' == A.WithPart(masks, m)))
    ensures PendingAre(layout, h + [m], masks')
  {
    hide Fitting, Registered;
    forall md, part | part in A.Pending(masks', md) ensures PartIs(layout, h + [m], md, part) {
      assert part in A.Pending(masks, md) || part == m;
      if part in A.Pending(masks, md) {
        assert PartIs(layout, h, md, part);
      }
      RegisteredSnoc(h, m, md.domain);
    }
  }

  lemma BuiltStep(layout: Layout, built: seq<Build>, bitmasks: map<A.Key, seq<byte>>, b: Build)
    requires SoundLayout(layout) && BuildsAre(layout, built) && BitmasksAre(layout, built, bitmasks)
    requires BuildIs(layout, b)
    ensures BuildsAre(layout, built + [b])
    ensures BitmasksAre(layout, built + [b], bitmasks[A.KeyOf(b.md) := EncodedRunLength(b.cells)])
  {
    hide A.Assembled, A.AllFit, EncodedRunLength, A.KeyOf, Latest;
    forall key ensures Latest(built + [b], key) == if A.KeyOf(b.md) == key then [b] else Latest(built, key) {
      LatestSnoc(built, b, key);
    }
  }

  lemma HoldsDomain(layout: Layout, h: seq<Message>, s: Server, m: Message)
    requires SoundLayout(layout) && Holds(layout, h, s) && Follows(layout, h, m) && !m.body.MaskPart?
    ensures Proper(m) && CanHandle(s, m)
    ensures Holds(layout, h + [m], Handle(s, m))
  {
    hide A.Stored, BuildsAre, BitmasksAre, PendingAre, M.Decode, WellFormed, Registered, MapsAre, M.AddDomain;
    PendingStep(layout, h, s.masks, m, s.masks);
    MapsStep(layout, h, s.maps, m);
    if m.body.Parametrization? {
      P.AgreedSucceed(layout.params, s.params, P.Entries(m.body.update));
    }
  }

  lemma HoldsMask(layout: Layout, h: seq<Message>, s: Server, m: Message)
    requires SoundLayout(layout) && Holds(layout, h, s) && Follows(layout, h, m) && m.body.MaskPart?
    ensures Proper(m) && CanHandle(s, m)
    ensures Holds(layout, h + [m], Handle(s, m))
  {
    hide A.Assembled, A.AllFit, EncodedRunLength, A.Usable, A.Stored, Readable, Registered, A.Builds, A.Raises,
         MapsAre, BuildsAre, BitmasksAre, PendingAre, Aggregable;
    MaskBuilds(layout, h, s, m);
    FitsFull(layout, m);
    MapsStep(layout, h, s.maps, m);
    PendingStep(layout, h, s.masks, m, Handle(s, m).masks);
    if A.Builds(s.maps, s.masks, m) {
      var parts := A.Pending(s.masks, m.md) + [m];
      var b := Build(m.md, parts, A.Assembled(Full(layout, m.md.domain), m.md, parts));
      BuiltStep(layout, s.built, s.masks.bitmasks, b);
      assert Handle(s, m).built == s.built + [b];
    } else {
      assert Handle(s, m).built == s.built + [] == s.built;
    }
  }

  /** No message of a well-ordered history raises an exception, and what the server holds is as
      described. */
  lemma {:induction false} HoldsAlways(layout: Layout, h: seq<Message>)
    requires SoundLayout(layout) && WellOrdered(layout, h)
    ensures CanServe(h) && Holds(layout, h, Serve(h))
    decreases |h|
  {
    if h == [] {
      assert Holds(layout, [], IDLE);
    } else {
      var init, m := h[..|h| - 1], h[|h| - 1];
      assert h == init + [m];
      HoldsAlways(layout, init);
      if m.body.MaskPart? {
        HoldsMask(layout, init, Serve(init), m);
      } else {
        HoldsDomain(layout, init, Serve(init), m);
      }
      ServeSnoc(init, m);
    }
  }

  // ---- one build per round

  function IsMaskOf(md: Metadata): Message -> bool {
    (m: Message) => m.body.MaskPart? && m.md == md
  }

  /** The masks of a field, in order. */
  function FieldMasks(h: seq<Message>, md: Metadata): seq<Message> {
    Filter(h, IsMaskOf(md))
  }

  lemma FieldMasksSnoc(h: seq<Message>, m: Message, md: Metadata)
    ensures FieldMasks(h + [m], md) == FieldMasks(h, md) + if m.body.MaskPart? && m.md == md then [m] else []
  {
    FilterSnoc(h, m, IsMaskOf(md));
  }

  /** What handling a mask does to the stored parts and to the builds. */
  lemma MaskHandled(s: Server, m: Message)
    requires Sane(s) && Proper(m) && CanHandle(s, m) && m.body.MaskPart?
    ensures var parts, s' := A.Pending(s.masks, m.md) + [m], Handle(s, m);
            if A.Builds(s.maps, s.masks, m) then
              && s'.masks.messages == s.masks.messages[m.md := []]
              && |s'.built| == |s.built| + 1 && s'.built == s.built + [s'.built[|s.built|]]
              && s'.built[|s.built|].md == m.md && s'.built[|s.built|].parts == parts
            else
              s'.masks.messages == s.masks.messages[m.md := parts] && s'.built == s.built
  {
    hide A.Builds, A.Raises, EncodedRunLength, A.Stored, A.Usable;
  }

  lemma OtherChunksKept(s: Server, s': Server, other: Metadata, parts: seq<Message>, md: Metadata)
    requires md != other && s'.masks.messages == s.masks.messages[other := parts]
    requires s'.built == s.built
             || (|s'.built| == |s.built| + 1 && s'.built[..|s.built|] == s.built && s'.built[|s.built|].md == other)
    ensures ChunksOf(s', md) == ChunksOf(s, md)
  {
    if s'.built != s.built {
      assert s'.built == s.built + [s'.built[|s.built|]];
      PartsOfSnoc(s.built, s'.built[|s.built|], md);
    }
  }

  /** A message that is not a mask of the field changes neither its builds nor its stored parts. */
  lemma ChunksKept(layout: Layout, h: seq<Message>, s: Server, m: Message, md: Metadata)
    requires SoundLayout(layout) && Holds(layout, h, s) && Follows(layout, h, m)
    requires Proper(m) && CanHandle(s, m) && !(m.body.MaskPart? && m.md == md)
    ensures ChunksOf(Handle(s, m), md) == ChunksOf(s, md)
  {
    assert Sane(s);
    hide Sane, Handle, Holds, Follows, Proper, CanHandle, A.Builds, ChunksOf;
    if m.body.MaskPart? {
      MaskHandled(s, m);
      OtherChunksKept(s, Handle(s, m), m.md, Handle(s, m).masks.messages[m.md], md);
    } else {
      OthersHandled(s, m);
      SameChunks(s, Handle(s, m), md);
    }
  }

  lemma SameChunks(s: Server, s': Server, md: Metadata)
    requires s'.masks == s.masks && s'.built == s.built
    ensures ChunksOf(s', md) == ChunksOf(s, md)
  {
  }

  lemma OthersHandled(s: Server, m: Message)
    requires Sane(s) && Proper(m) && CanHandle(s, m) && !m.body.MaskPart?
    ensures Handle(s, m).masks == s.masks && Handle(s, m).built == s.built
  {
  }

  /** A mask of the field closes a chunk if every peer has described its part and as many masks are
      there, and otherwise waits. */
  lemma ChunksStep(layout: Layout, h: seq<Message>, s: Server, m: Message)
    requires SoundLayout(layout) && Holds(layout, h, s) && Follows(layout, h, m) && m.body.MaskPart?
    requires Proper(m) && CanHandle(s, m)
    ensures var c, parts := ChunksOf(s, m.md), Parts(layout, m.md.domain);
            ChunksOf(Handle(s, m), m.md) ==
            if parts.Keys <= Registered(h, m.md.domain) && |c.pending| + 1 == |parts| then
              Chunks(c.complete + [c.pending + [m]], [])
            else Chunks(c.complete, c.pending + [m])
  {
    MaskBuilds(layout, h, s, m);
    MaskHandled(s, m);
    assert Sane(s);
    hide Sane, Handle, Holds, Follows, A.Builds, A.Assembled, A.Raises, EncodedRunLength, A.AllFit, Proper, CanHandle;
    var s' := Handle(s, m);
    if A.Builds(s.maps, s.masks, m) {
      PartsOfSnoc(s.built, s'.built[|s.built|], m.md);
    }
  }

  lemma {:induction false} PendingSources(ms: seq<Message>, p: Peer)
    ensures p in Sources(ms) <==> exists m :: m in ms && m.source == p
  {
    if p in Sources(ms) {
      var i :| 0 <= i < |ms| && Sources(ms)[i] == p;
      assert ms[i] in ms;
    }
    if m :| m in ms && m.source == p {
      var i :| 0 <= i < |ms| && ms[i] == m;
      assert Sources(ms)[i] == p;
    }
  }

  /** When the peers of the stored parts and the new one are all peers, all have described theirs. */
  lemma AllRegistered(layout: Layout, h: seq<Message>, s: Server, m: Message)
    requires SoundLayout(layout) && Holds(layout, h, s) && Follows(layout, h, m) && m.body.MaskPart?
    requires OneOfEach(Sources(A.Pending(s.masks, m.md) + [m]), Parts(layout, m.md.domain).Keys)
    ensures Parts(layout, m.md.domain).Keys <= Registered(h, m.md.domain)
  {
    hide Fitting, Sane, MapsAre, BuildsAre, BitmasksAre;
    var parts := A.Pending(s.masks, m.md) + [m];
    forall p | p in Parts(layout, m.md.domain).Keys ensures p in Registered(h, m.md.domain) {
      assert p in Members(Sources(parts));
      PendingSources(parts, p);
      var part :| part in parts && part.source == p;
      assert part == m || PartIs(layout, h, m.md, part);
    }
  }

  /** In rounds, what the server does with the next mask is what the plain counter does. */
  lemma SameAsCounter(layout: Layout, h: seq<Message>, s: Server, m: Message)
    requires SoundLayout(layout) && WellOrdered(layout, h) && Holds(layout, h, s) && Follows(layout, h, m)
    requires m.body.MaskPart? && Proper(m) && CanHandle(s, m)
    requires var peers := Parts(layout, m.md.domain).Keys;
             && ChunksOf(s, m.md) == Accumulate(FieldMasks(h, m.md), |peers|)
             && AreRounds(ChunksOf(s, m.md), peers)
             && m.source !in Sources(ChunksOf(s, m.md).pending)
    ensures ChunksOf(Handle(s, m), m.md) == Accumulate(FieldMasks(h + [m], m.md), |Parts(layout, m.md.domain).Keys|)
  {
    hide Holds, A.Stored, A.Assembled, A.Raises, Proper, CanHandle, Registered, Aggregable;
    var parts := Parts(layout, m.md.domain);
    var c := ChunksOf(s, m.md);
    ChunksStep(layout, h, s, m);
    FieldMasksSnoc(h, m, m.md);
    AccumulateSnoc(FieldMasks(h, m.md), m, |parts|);
    if |c.pending| + 1 == |parts.Keys| {
      SourcesSnoc(c.pending, m);
      NoRepeatSnoc(Sources(c.pending), m.source, parts.Keys);
      SubsetFull(Members(Sources(c.pending + [m])), parts.Keys);
      AllRegistered(layout, h, s, m);
    }
  }

  /** The server's chunks are rounds exactly when the peers are in lockstep, and are then those of a
      counter that fires on every n-th mask. */
  ghost predicate RoundsAre(layout: Layout, h: seq<Message>, s: Server, md: Metadata) {
    var ms, peers, c := FieldMasks(h, md), Parts(layout, md.domain).Keys, ChunksOf(s, md);
    && (AreRounds(c, peers) <==> Lockstep(Sources(ms), peers))
    && (Lockstep(Sources(ms), peers) ==> c == Accumulate(ms, |peers|))
  }

  lemma RoundsStep(layout: Layout, h: seq<Message>, s: Server, m: Message)
    requires SoundLayout(layout) && WellOrdered(layout, h) && Holds(layout, h, s) && Follows(layout, h, m)
    requires m.body.MaskPart? && Proper(m) && CanHandle(s, m)
    requires RoundsAre(layout, h, s, m.md)
    ensures RoundsAre(layout, h + [m], Handle(s, m), m.md)
  {
    var ms, peers := FieldMasks(h, m.md), Parts(layout, m.md.domain).Keys;
    var c, c' := ChunksOf(s, m.md), ChunksOf(Handle(s, m), m.md);
    assert m.source in peers;
    ChunksStep(layout, h, s, m);
    hide Holds, A.Stored, A.Assembled, A.Raises, Proper, CanHandle, Registered, Aggregable, ChunksOf, AreRounds, Lockstep;
    FieldMasksSnoc(h, m, m.md);
    SourcesSnoc(ms, m);
    LockstepSnoc(Sources(ms), m.source, peers);
    RoundsIffLockstep(ms + [m], peers);
    if AreRounds(c', peers) {
      ChunksPrefix(c, m, c', peers);
      SameAsCounter(layout, h, s, m);
    }
    if Lockstep(Sources(ms + [m]), peers) {
      RoundsCount(ms, peers);
      NextInRound(Sources(ms), peers, |c.complete|, Sources(c.pending), m.source);
      SameAsCounter(layout, h, s, m);
    }
  }

  lemma RoundsKept(layout: Layout, h: seq<Message>, s: Server, m: Message, md: Metadata)
    requires SoundLayout(layout) && Holds(layout, h, s) && Follows(layout, h, m)
    requires Proper(m) && CanHandle(s, m) && !(m.body.MaskPart? && m.md == md)
    requires RoundsAre(layout, h, s, md)
    ensures RoundsAre(layout, h + [m], Handle(s, m), md)
  {
    ChunksKept(layout, h, s, m, md);
    FieldMasksSnoc(h, m, md);
    assert FieldMasks(h + [m], md) == FieldMasks(h, md);
  }

  /** A field is built once per round, each time from exactly one part of each peer of its domain,
      exactly when no peer sends its next mask of the field before every peer has sent the current
      one. The builds are then those of a counter that fires on every n-th mask. */
  lemma {:induction false} BuiltInRounds(layout: Layout, h: seq<Message>, md: Metadata)
    requires SoundLayout(layout) && WellOrdered(layout, h) && Parts(layout, md.domain).Keys != {}
    ensures CanServe(h) && RoundsAre(layout, h, Serve(h), md)
    decreases |h|
  {
    if h == [] {
      RoundsIffLockstep([], Parts(layout, md.domain).Keys);
    } else {
      var init, m := h[..|h| - 1], h[|h| - 1];
      assert h == init + [m];
      BuiltInRounds(layout, init, md);
      RoundsNext(layout, init, m, md);
    }
  }

  lemma RoundsNext(layout: Layout, h: seq<Message>, m: Message, md: Metadata)
    requires SoundLayout(layout) && WellOrdered(layout, h) && Follows(layout, h, m)
    requires CanServe(h) && RoundsAre(layout, h, Serve(h), md)
    ensures CanServe(h + [m]) && RoundsAre(layout, h + [m], Serve(h + [m]), md)
  {
    hide RoundsAre, Holds;
    HoldsAlways(layout, h);
    WellOrderedSnoc(layout, h, m);
    HoldsAlways(layout, h + [m]);
    assert (h + [m])[..|h|] == h;
    ServeSnoc(h, m);
    if m.body.MaskPart? && m.md == md {
      RoundsStep(layout, h, Serve(h), m);
    } else {
      RoundsKept(layout, h, Serve(h), m, md);
    }
  }

  // ---- without lockstep

  lemma {:induction false} RegisteredGrows(h: seq<Message>, k: nat, name: string)
    requires k <= |h|
    ensures Registered(h[..k], name) <= Registered(h, name)
    decreases |h|
  {
    if k < |h| {
      var init := h[..|h| - 1];
      assert init[..k] == h[..k];
      RegisteredGrows(init, k, name);
    } else {
      assert h[..k] == h;
    }
  }

  lemma CountStep(layout: Layout, h: seq<Message>, m: Message, md: Metadata)
    requires SoundLayout(layout) && WellOrdered(layout, h + [m])
    requires Parts(layout, md.domain).Keys <= Registered(h, md.domain)
    requires CanServe(h) && ChunksOf(Serve(h), md) == Accumulate(FieldMasks(h, md), |Parts(layout, md.domain)|)
    ensures CanServe(h + [m])
    ensures ChunksOf(Serve(h + [m]), md) == Accumulate(FieldMasks(h + [m], md), |Parts(layout, md.domain)|)
  {
    WellOrderedSnoc(layout, h, m);
    hide WellOrdered, Follows, Holds, Proper, CanHandle, Handle, Registered, Parts, FieldMasks, Accumulate, ChunksOf;
    HoldsAlways(layout, h);
    HoldsAlways(layout, h + [m]);
    assert (h + [m])[..|h|] == h;
    ServeSnoc(h, m);
    FieldMasksSnoc(h, m, md);
    if m.body.MaskPart? && m.md == md {
      ChunksStep(layout, h, Serve(h), m);
      AccumulateSnoc(FieldMasks(h, md), m, |Parts(layout, md.domain)|);
    } else {
      ChunksKept(layout, h, Serve(h), m, md);
      assert FieldMasks(h + [m], md) == FieldMasks(h, md);
    }
  }

  /** Once all peers of the domain have described their parts, the server builds the field from every
      n masks that arrive, whoever sent them. */
  lemma {:induction false} CountsOnly(layout: Layout, h: seq<Message>, k: nat, md: Metadata)
    requires SoundLayout(layout) && WellOrdered(layout, h) && k <= |h| && Parts(layout, md.domain).Keys != {}
    requires Parts(layout, md.domain).Keys <= Registered(h[..k], md.domain) && FieldMasks(h[..k], md) == []
    ensures CanServe(h) && ChunksOf(Serve(h), md) == Accumulate(FieldMasks(h, md), |Parts(layout, md.domain)|)
    decreases |h|
  {
    if k == |h| {
      assert h[..k] == h;
      BuiltInRounds(layout, h, md);
    } else {
      var init, m := h[..|h| - 1], h[|h| - 1];
      assert h == init + [m] && init[..k] == h[..k];
      RegisteredGrows(init, k, md.domain);
      CountsOnly(layout, init, k, md);
      CountStep(layout, init, m, md);
    }
  }
}
