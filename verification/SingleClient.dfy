/** The smallest use of the protocol: one client that describes a grid of one row, sends one mask on
    it and closes. What it sent is what the server builds. */
module SingleClient {
  import opened Arithmetic
  import opened Domains
  import opened Messages
  import opened MaskFormat
  import opened MaskRoundTrip
  import opened FieldAssembly
  import opened GlobalMask
  import opened Network
  import opened Progress
  import opened Rounds
  import A = MaskAssembly
  import D = Dispatcher
  import L = Listener
  import M = Mappings

  const CLIENT: Peer := 0

  function Definition(n: int): (def: seq<int>)
    ensures |def| == 12
  {
    [n, 1, 0, n, 0, 1, 0, 0, n, 0, 1, n]
  }

  function Row(n: int): Domain {
    Structured(Definition(n))
  }

  function Grids(n: int): Layout {
    Layout(map["grid" := map[CLIENT := Row(n)]], map[])
  }

  function DomainMd(n: int): Metadata {
    Metadata("grid", "grid", 0, n, "structured", "domain")
  }

  function MaskMd(n: int): Metadata {
    Metadata("mask", "grid", 0, n, "structured", "mask")
  }

  function DomainMessage(n: int): Message {
    Message(CLIENT, DomainMd(n), DomainPart(Definition(n)))
  }

  function MaskMessage(mask: seq<bool>): Message
    requires 1 <= |mask| < MAX_SIZE
  {
    Message(CLIENT, MaskMd(|mask|), MaskPart(EncodedMask(mask)))
  }

  function Script(mask: seq<bool>): seq<Message>
    requires 1 <= |mask| < MAX_SIZE
  {
    [Message(CLIENT, DomainMd(|mask|), Open), DomainMessage(|mask|), MaskMessage(mask),
     Message(CLIENT, DomainMd(|mask|), Close)]
  }

  function Clients(mask: seq<bool>): Scripts
    requires 1 <= |mask| < MAX_SIZE
  {
    map[CLIENT := Script(mask)]
  }

  lemma RowIsWellFormed(n: int)
    requires 1 <= n <= INT_MAX
    ensures WellFormed(Row(n)) && SoundLayout(Grids(n))
    ensures GlobalSize(Row(n)) == LocalSize(Row(n)) == DataSize(Row(n)) == PartialSize(Row(n)) == n
    ensures M.Sound(Grids(n).domains["grid"]) && Aggregable(Grids(n).domains["grid"], n)
  {
    assert Product(n, 1) == n;
    var parts := Grids(n).domains["grid"];
    assert M.Bounds(parts.Keys, 1);
    M.TotalIs(parts, 1);
    assert M.SumBelow(parts, 1) == M.SumBelow(parts, 0) + LocalSize(Row(n));
  }

  lemma ReadBack(mask: seq<bool>)
    requires 1 <= |mask| <= INT_MAX
    ensures Readable(EncodedMask(mask)) && Values(EncodedMask(mask)) == mask
  {
    ShortMaskRoundTrip(mask);
    hide DecodesToBits, EncodedMask;
    DecodesUnique(EncodedMask(mask), Values(EncodedMask(mask)), mask);
  }

  lemma MaskFits(mask: seq<bool>)
    requires 1 <= |mask| <= INT_MAX
    ensures SoundLayout(Grids(|mask|)) && Fitting(Grids(|mask|), MaskMessage(mask))
  {
    hide EncodedMask, WellFormed, M.Total, Aggregable, Readable, Values, DataSize;
    RowIsWellFormed(|mask|);
    ReadBack(mask);
  }

  lemma DomainFits(n: int)
    requires 1 <= n <= INT_MAX
    ensures SoundLayout(Grids(n)) && Fitting(Grids(n), DomainMessage(n))
  {
    hide WellFormed, Definition;
    RowIsWellFormed(n);
    assert AddPartialSize(Definition(n)) == Definition(n);
    assert M.Decode(DomainMessage(n)) == [Row(n)];
  }

  /** A domain and a mask on it, between two other messages, are in order. */
  lemma FourOrdered(layout: Layout, a: Message, b: Message, c: Message, d: Message)
    requires SoundLayout(layout) && Fitting(layout, a) && Fitting(layout, b) && Fitting(layout, c) && Fitting(layout, d)
    requires b.body.DomainPart? && c.body.MaskPart? && b.md.name == c.md.domain && b.source == c.source
    requires !a.body.MaskPart? && !d.body.MaskPart?
    ensures WellOrdered(layout, [a, b, c, d])
  {
    hide Fitting, SoundLayout, WellOrdered;
    var h1, h2, h3 := [a], [a] + [b], [a] + [b] + [c];
    EmptyOrdered(layout);
    assert [] + [a] == h1 && h3 + [d] == [a, b, c, d];
    WellOrderedSnoc(layout, [], a);
    WellOrderedSnoc(layout, h1, b);
    RegisteredSnoc(h1, b, c.md.domain);
    WellOrderedSnoc(layout, h2, c);
    WellOrderedSnoc(layout, h3, d);
  }

  lemma EmptyOrdered(layout: Layout)
    requires SoundLayout(layout)
    ensures WellOrdered(layout, [])
  {
  }

  lemma ScriptIsOrdered(mask: seq<bool>)
    requires 1 <= |mask| <= INT_MAX
    ensures SoundLayout(Grids(|mask|)) && WellOrdered(Grids(|mask|), Script(mask))
  {
    hide EncodedMask, SoundLayout, WellOrdered, Grids;
    MaskFits(mask);
    DomainFits(|mask|);
    FourOrdered(Grids(|mask|), Script(mask)[0], DomainMessage(|mask|), MaskMessage(mask), Script(mask)[3]);
  }

  lemma OnlyClientIsGood(layout: Layout, p: Peer, script: seq<Message>, d: Domain)
    requires layout.domains == map["grid" := map[p := d]] && SoundLayout(layout)
    requires L.WellBehaved(p, script) && WellOrdered(layout, script)
    ensures GoodClients(layout, map[p := script]) && EqualSyncs(map[p := script])
  {
    hide WellOrdered, SoundLayout, L.WellBehaved, SyncsIn;
    var scripts: Scripts := map[p := script];
    assert p in scripts.Keys && p in layout.domains["grid"].Keys;
  }

  /** The assumptions about clients can be met, for every mask on such a grid. */
  lemma ClientIsGood(mask: seq<bool>)
    requires 1 <= |mask| <= INT_MAX
    ensures GoodClients(Grids(|mask|), Clients(mask)) && EqualSyncs(Clients(mask))
  {
    hide EncodedMask, WellOrdered, SoundLayout, GoodClients, EqualSyncs;
    ScriptIsOrdered(mask);
    OnlyClientIsGood(Grids(|mask|), CLIENT, Script(mask), Row(|mask|));
  }

  // ---- from the client's mask to the server's

  lemma MasksOfScript(mask: seq<bool>)
    requires 1 <= |mask| <= INT_MAX
    ensures FieldMasks(Script(mask), MaskMd(|mask|)) == [MaskMessage(mask)]
  {
    hide EncodedMask;
    var s, md := Script(mask), MaskMd(|mask|);
    assert s == [] + [s[0]] + [s[1]] + [s[2]] + [s[3]];
    FieldMasksSnoc([], s[0], md);
    FieldMasksSnoc([] + [s[0]], s[1], md);
    FieldMasksSnoc([] + [s[0]] + [s[1]], s[2], md);
    FieldMasksSnoc([] + [s[0]] + [s[1]] + [s[2]], s[3], md);
  }

  lemma FieldIsPaced(mask: seq<bool>)
    requires 1 <= |mask| <= INT_MAX
    ensures Paced(Grids(|mask|), Clients(mask), MaskMd(|mask|))
  {
    hide EncodedMask, Paced;
    MasksOfScript(mask);
    OnceIsPaced(Grids(|mask|), Clients(mask), MaskMd(|mask|));
  }

  lemma CellOfRow(n: int, c: nat)
    requires 1 <= n <= INT_MAX && c < n
    ensures OriginOf(GridOf(Definition(n)), c) == At(c)
  {
    assert c / n == 0 && c % n == c;
  }

  lemma OnePartOf(layout: Layout, scripts: Scripts, s: State, md: Metadata, p: Peer, m: Message, parts: seq<Message>)
    requires GoodClients(layout, scripts) && Reachable(scripts, s) && Paced(layout, scripts, md) && md.domain in layout.domains
    requires layout.domains[md.domain].Keys == {p} && p in scripts && FieldMasks(scripts[p], md) == [m]
    requires PartsOf(s.server.built, md) == [parts]
    ensures parts == [m]
  {
    hide Paced, GoodClients, Reachable, Invariant, Accumulate, From, FieldMasks, AreRounds, RoundByRound, PartsOf;
    var peers := layout.domains[md.domain].Keys;
    assert |peers| == 1;
    BuiltOncePerRound(layout, scripts, s, md);
    var ms, c := FieldMasks(Handled(s), md), ChunksOf(s.server, md);
    hide Typed, ChunksOf;
    ReachableKeeps(layout, scripts, s);
    HandledFrom(layout, scripts, s, md, p);
    RoundsHoldNth(ms, peers);
    OnlyPart(ms, parts, c, p, m);
  }

  /** With a single peer that sends a single mask, the field is built once, from that mask. */
  lemma OneBuild(layout: Layout, scripts: Scripts, s: State, md: Metadata, p: Peer, m: Message) returns (b: D.Build)
    requires GoodClients(layout, scripts) && Reachable(scripts, s) && Paced(layout, scripts, md)
    requires Typed(scripts, s) && Finished(scripts, s)
    requires md.domain in layout.domains && layout.domains[md.domain].Keys == {p} && p in scripts && FieldMasks(scripts[p], md) == [m]
    ensures BuildsOf(s.server.built, md) == [b] && b in s.server.built && b.md == md && b.parts == [m]
  {
    hide Paced, GoodClients, Reachable, FieldMasks, Typed, Finished, BuildsOf, PartsOf;
    FinishedField(layout, scripts, s, md, 1);
    b := BuildsOf(s.server.built, md)[0];
    BuildsHaveParts(s.server.built, md);
    OnePartOf(layout, scripts, s, md, p, m, b.parts);
  }

  lemma OnlyPart(ms: seq<Message>, parts: seq<Message>, c: Chunks, p: Peer, m: Message)
    requires c.complete == [parts] && AreRounds(c, {p}) && RoundByRound(ms, c) && From(ms, p) <= [m]
    ensures parts == [m]
  {
    hide From;
    assert c.complete[0] == parts;
    assert OneOfEach(Sources(parts), {p});
    assert Sources(parts)[0] in Members(Sources(parts));
    assert IsNth(ms, c.complete[0][0], 0);
  }

  /** When everything is finished, the server has built the field once, and its cells are the mask the
      client sent. */
  lemma ServerHasMask(mask: seq<bool>, s: State)
    requires 1 <= |mask| <= INT_MAX
    requires Reachable(Clients(mask), s) && Typed(Clients(mask), s) && Finished(Clients(mask), s)
    ensures |BuildsOf(s.server.built, MaskMd(|mask|))| == 1
    ensures BuildsOf(s.server.built, MaskMd(|mask|))[0].cells == mask
  {
    hide EncodedMask, Paced, GoodClients, Reachable, FieldMasks, Finished, Typed, SoundLayout, BuildIs, Script;
    ClientIsGood(mask);
    FieldIsPaced(mask);
    MasksOfScript(mask);
    OnlyGrid(|mask|);
    var b := OneBuild(Grids(|mask|), Clients(mask), s, MaskMd(|mask|), CLIENT, MaskMessage(mask));
    BuildHere(Grids(|mask|), Clients(mask), s, b);
    CellsAreMask(mask, b);
  }

  lemma OnlyGrid(n: int)
    ensures "grid" in Grids(n).domains && Grids(n).domains["grid"].Keys == {CLIENT}
  {
  }

  lemma CellsAreMask(mask: seq<bool>, b: D.Build)
    requires 1 <= |mask| <= INT_MAX
    requires b.md == MaskMd(|mask|) && b.parts == [MaskMessage(mask)]
    requires SoundLayout(Grids(|mask|)) && BuildIs(Grids(|mask|), b)
    ensures b.cells == mask
  {
    var dm := Full(Grids(|mask|), "grid");
    forall c: nat | c < |mask| ensures b.cells[c] == mask[c] {
      CellIsMask(mask, dm, c);
      hide EncodedMask, A.Assembled, A.AllFit, Covers, ValueAt, SoundLayout;
      AssembledCell(dm, b.md, b.parts, c);
      assert b.parts[0] == MaskMessage(mask);
    }
  }

  lemma CellIsMask(mask: seq<bool>, dm: M.DomainMap, c: nat)
    requires 1 <= |mask| <= INT_MAX && c < |mask| && dm == Full(Grids(|mask|), "grid")
    ensures Covers(dm, MaskMessage(mask), c) && ValueAt(dm, MaskMessage(mask), c) == mask[c]
  {
    hide EncodedMask, OriginOf, A.Fits;
    ReadBack(mask);
    CellOfRow(|mask|, c);
    PartIsFitted(mask);
  }

  lemma PartIsFitted(mask: seq<bool>)
    requires 1 <= |mask| <= INT_MAX
    ensures Fitted(Full(Grids(|mask|), "grid"), MaskMessage(mask))
  {
    hide EncodedMask, Aggregable, A.Fits, WellFormed, Readable, Values;
    MaskFits(mask);
    FitsFull(Grids(|mask|), MaskMessage(mask));
  }

  /** Such a state can be reached. */
  lemma ServerGetsMask(mask: seq<bool>) returns (s: State)
    requires 1 <= |mask| <= INT_MAX
    ensures Reachable(Clients(mask), s) && Typed(Clients(mask), s) && Finished(Clients(mask), s)
    ensures |BuildsOf(s.server.built, MaskMd(|mask|))| == 1
    ensures BuildsOf(s.server.built, MaskMd(|mask|))[0].cells == mask
  {
    ClientIsGood(mask);
    StartIsReachable(Clients(mask));
    hide EncodedMask, GoodClients, Reachable, Finished, Typed, EqualSyncs;
    s := CanFinish(Grids(|mask|), Clients(mask), Initial(Clients(mask)));
    ServerHasMask(mask, s);
  }
}
