/** Two clients that share a grid of two cells and do not synchronize: a run in which the server
    builds the field from two masks of the same client. */
module TwoClients {
  import opened Arithmetic
  import opened Domains
  import opened Messages
  import opened MaskFormat
  import opened MaskRoundTrip
  import opened FieldAssembly
  import opened GlobalMask
  import opened Network
  import opened Pacing
  import opened Progress
  import opened Rounds
  import A = MaskAssembly
  import D = Dispatcher
  import L = Listener
  import M = Mappings
  import S = SingleClient

  const FIRST: Peer := 0
  const SECOND: Peer := 1

  /** Each client owns one cell. */
  function Definition(p: Peer): (def: seq<int>)
    ensures |def| == 12
  {
    [2, 1, p, 1, 0, 1, 0, 0, 1, 0, 1, 2]
  }

  function Cell(p: Peer): Domain {
    Structured(Definition(p))
  }

  const LAYOUT := Layout(map["grid" := map[FIRST := Cell(FIRST), SECOND := Cell(SECOND)]], map[])

  const DOMAIN_MD := Metadata("grid", "grid", 0, 2, "structured", "domain")
  const MASK_MD := Metadata("mask", "grid", 0, 2, "structured", "mask")

  function DomainMessage(p: Peer): Message {
    Message(p, DOMAIN_MD, DomainPart(Definition(p)))
  }

  function MaskMessage(p: Peer, v: bool): Message {
    Message(p, MASK_MD, MaskPart(EncodedMask([v])))
  }

  /** Two masks with no synchronization between them. */
  function Script(p: Peer, v: bool, w: bool): (script: seq<Message>)
    ensures |script| == 5
  {
    [Message(p, DOMAIN_MD, Open), DomainMessage(p), MaskMessage(p, v), MaskMessage(p, w), Message(p, DOMAIN_MD, Close)]
  }

  function Clients(a: (bool, bool), b: (bool, bool)): Scripts {
    map[FIRST := Script(FIRST, a.0, a.1), SECOND := Script(SECOND, b.0, b.1)]
  }

  // ---- the clients behave

  lemma CellIsSound(p: Peer)
    requires p == FIRST || p == SECOND
    ensures WellFormed(Cell(p)) && LocalSize(Cell(p)) == DataSize(Cell(p)) == 1
    ensures GlobalSize(Cell(p)) == PartialSize(Cell(p)) == 2
  {
  }

  lemma TotalOfTwo(parts: map<Peer, Domain>)
    requires parts.Keys == {FIRST, SECOND} && M.Sound(parts)
    ensures M.Total(parts) == LocalSize(parts[FIRST]) + LocalSize(parts[SECOND])
  {
    hide WellFormed, LocalSize, M.Total;
    assert M.Bounds(parts.Keys, 2);
    M.TotalIs(parts, 2);
    assert M.SumBelow(parts, 1) == M.SumBelow(parts, 0) + LocalSize(parts[FIRST]);
  }

  lemma CellsAreSound()
    ensures WellFormed(Cell(FIRST)) && WellFormed(Cell(SECOND)) && SoundLayout(LAYOUT)
    ensures Aggregable(LAYOUT.domains["grid"], 2) && DataSize(Cell(FIRST)) == DataSize(Cell(SECOND)) == 1
  {
    hide WellFormed, LocalSize, DataSize, GlobalSize, PartialSize, M.Total, Definition;
    CellIsSound(FIRST);
    CellIsSound(SECOND);
    var parts := LAYOUT.domains["grid"];
    assert parts.Keys == {FIRST, SECOND} && M.Sound(parts);
    TotalOfTwo(parts);
  }

  lemma PartOf(p: Peer)
    requires p == FIRST || p == SECOND
    ensures SoundLayout(LAYOUT) && p in Parts(LAYOUT, "grid") && LAYOUT.domains["grid"][p] == Cell(p)
    ensures WellFormed(Cell(p)) && DataSize(Cell(p)) == 1 && Aggregable(LAYOUT.domains["grid"], 2)
  {
    hide WellFormed, M.Total, Aggregable, DataSize, Definition;
    CellsAreSound();
  }

  lemma DomainFits(p: Peer)
    requires p == FIRST || p == SECOND
    ensures SoundLayout(LAYOUT) && Fitting(LAYOUT, DomainMessage(p))
  {
    PartOf(p);
    assert AddPartialSize(Definition(p)) == Definition(p);
    hide WellFormed, Aggregable, DataSize, Definition, SoundLayout, Parts, AddPartialSize;
    assert M.Decode(DomainMessage(p)) == [Cell(p)];
  }

  lemma FitsAs(layout: Layout, m: Message)
    requires SoundLayout(layout) && m.body.MaskPart? && A.IsPart(m, m.md) && m.source in Parts(layout, m.md.domain)
    requires Aggregable(layout.domains[m.md.domain], m.md.globalSize)
    requires Readable(m.body.payload) && |Values(m.body.payload)| == DataSize(layout.domains[m.md.domain][m.source])
    ensures Fitting(layout, m)
  {
  }

  lemma MaskIsPart(p: Peer, v: bool)
    ensures A.IsPart(MaskMessage(p, v), MASK_MD)
  {
    hide EncodedMask, Readable, Values;
    S.ReadBack([v]);
  }

  lemma MaskFits(p: Peer, v: bool)
    requires p == FIRST || p == SECOND
    ensures SoundLayout(LAYOUT) && Fitting(LAYOUT, MaskMessage(p, v))
  {
    hide EncodedMask, WellFormed, Aggregable, Readable, Values, DataSize, Definition, SoundLayout, Parts, Fitting, A.IsPart;
    PartOf(p);
    S.ReadBack([v]);
    MaskIsPart(p, v);
    FitsAs(LAYOUT, MaskMessage(p, v));
  }

  /** A domain and two masks on it, between two other messages, are in order. */
  lemma FiveOrdered(layout: Layout, a: Message, b: Message, c: Message, d: Message, e: Message)
    requires SoundLayout(layout) && Fitting(layout, a) && Fitting(layout, b) && Fitting(layout, c) && Fitting(layout, d)
    requires Fitting(layout, e) && b.body.DomainPart? && c.body.MaskPart? && d.body.MaskPart?
    requires b.md.name == c.md.domain == d.md.domain && b.source == c.source == d.source
    requires !a.body.MaskPart? && !e.body.MaskPart?
    ensures WellOrdered(layout, [a, b, c, d, e])
  {
    hide Fitting, SoundLayout, WellOrdered;
    var h1, h2, h3, h4 := [a], [a] + [b], [a] + [b] + [c], [a] + [b] + [c] + [d];
    S.EmptyOrdered(layout);
    assert [] + [a] == h1 && h4 + [e] == [a, b, c, d, e];
    WellOrderedSnoc(layout, [], a);
    WellOrderedSnoc(layout, h1, b);
    RegisteredSnoc(h1, b, c.md.domain);
    WellOrderedSnoc(layout, h2, c);
    RegisteredSnoc(h2, c, c.md.domain);
    WellOrderedSnoc(layout, h3, d);
    WellOrderedSnoc(layout, h4, e);
  }

  lemma ScriptBehaves(p: Peer, v: bool, w: bool)
    ensures L.WellBehaved(p, Script(p, v, w))
  {
    hide EncodedMask, Definition;
  }

  lemma ScriptOrdered(p: Peer, v: bool, w: bool)
    requires p == FIRST || p == SECOND
    ensures SoundLayout(LAYOUT) && WellOrdered(LAYOUT, Script(p, v, w))
  {
    DomainFits(p);
    MaskFits(p, v);
    MaskFits(p, w);
    EndsFit(LAYOUT, Message(p, DOMAIN_MD, Open), Message(p, DOMAIN_MD, Close));
    hide EncodedMask, SoundLayout, WellOrdered, Fitting, Definition;
    var s := Script(p, v, w);
    FiveOrdered(LAYOUT, s[0], s[1], s[2], s[3], s[4]);
  }

  lemma EndsFit(layout: Layout, m: Message, n: Message)
    requires SoundLayout(layout) && m.body.Open? && n.body.Close?
    ensures Fitting(layout, m) && Fitting(layout, n)
  {
    hide SoundLayout;
  }

  lemma TwoGood(layout: Layout, p: Peer, q: Peer, a: seq<Message>, b: seq<Message>)
    requires SoundLayout(layout) && layout.domains.Keys == {"grid"} && layout.domains["grid"].Keys == {p, q} && p != q
    requires L.WellBehaved(p, a) && WellOrdered(layout, a) && L.WellBehaved(q, b) && WellOrdered(layout, b)
    ensures GoodClients(layout, map[p := a, q := b])
  {
    hide WellOrdered, SoundLayout, L.WellBehaved;
    var scripts: Scripts := map[p := a, q := b];
    assert p in scripts.Keys && p in layout.domains["grid"].Keys;
  }

  lemma ClientsAreGood(a: (bool, bool), b: (bool, bool))
    ensures GoodClients(LAYOUT, Clients(a, b))
  {
    hide WellOrdered, SoundLayout, L.WellBehaved, GoodClients, Script;
    ScriptOrdered(FIRST, a.0, a.1);
    ScriptOrdered(SECOND, b.0, b.1);
    ScriptBehaves(FIRST, a.0, a.1);
    ScriptBehaves(SECOND, b.0, b.1);
    TwoGood(LAYOUT, FIRST, SECOND, Script(FIRST, a.0, a.1), Script(SECOND, b.0, b.1));
  }

  // ---- what the prefixes of a script hold

  lemma {:induction false} NoneSelected(ms: seq<Message>, f: Message -> bool)
    requires forall i :: 0 <= i < |ms| ==> !f(ms[i])
    ensures Filter(ms, f) == []
    decreases |ms|
  {
    if ms != [] {
      NoneSelected(ms[..|ms| - 1], f);
    }
  }

  lemma PrefixHolds(p: Peer, v: bool, w: bool)
    ensures var s := Script(p, v, w);
            && (forall x: nat :: x <= 5 ==> SyncsIn(s[..x]) == 0)
            && p in Registered(s[..2], "grid")
            && FieldMasks(s[..2], MASK_MD) == []
            && FieldMasks(s[..4], MASK_MD) == [MaskMessage(p, v), MaskMessage(p, w)]
  {
    hide EncodedMask;
    var s := Script(p, v, w);
    forall x: nat | x <= 5 ensures SyncsIn(s[..x]) == 0 {
      NoneSelected(s[..x], IsSync);
    }
    NoneSelected(s[..2], IsMaskOf(MASK_MD));
    hide Filter;
    assert s[..2] == [s[0]] + [s[1]] && s[..3] == s[..2] + [s[2]] && s[..4] == s[..3] + [s[3]];
    RegisteredSnoc([s[0]], s[1], "grid");
    FieldMasksSnoc(s[..2], s[2], MASK_MD);
    FieldMasksSnoc(s[..3], s[3], MASK_MD);
  }

  // ---- the run

  /** First both clients describe their domains; then the first sends its two masks. */
  const DESCRIBED: Goal := map[FIRST := 2, SECOND := 2]
  const AHEAD: Goal := map[FIRST := 4, SECOND := 2]

  /** Without synchronizations nobody has to wait. */
  lemma NoSyncsGoal(scripts: Scripts, goal: Goal)
    requires goal.Keys == scripts.Keys && forall p :: p in scripts ==> goal[p] <= |scripts[p]|
    requires forall p, x: nat :: p in scripts && x <= |scripts[p]| ==> SyncsIn(scripts[p][..x]) == 0
    ensures IsGoal(scripts, goal)
  {
    hide SyncsIn;
  }

  lemma GoalsAreGoals(a: (bool, bool), b: (bool, bool))
    ensures IsGoal(Clients(a, b), DESCRIBED) && IsGoal(Clients(a, b), AHEAD)
  {
    hide EncodedMask, Script, SyncsIn, IsGoal, FieldMasks, Registered;
    PrefixHolds(FIRST, a.0, a.1);
    PrefixHolds(SECOND, b.0, b.1);
    NoSyncsGoal(Clients(a, b), DESCRIBED);
    NoSyncsGoal(Clients(a, b), AHEAD);
  }

  lemma GoalsFollow(a: (bool, bool), b: (bool, bool), s: State)
    requires Typed(Clients(a, b), s) && IsGoal(Clients(a, b), DESCRIBED) && IsGoal(Clients(a, b), AHEAD)
    requires AtGoal(Clients(a, b), s, DESCRIBED)
    ensures Below(Clients(a, b), s, AHEAD)
  {
    hide EncodedMask, Script, IsGoal;
    forall p | p in Clients(a, b) ensures s.sent[p] <= AHEAD[p] {
      assert s.sent[p] == DESCRIBED[p];
    }
  }

  lemma OneMaskedRound(m: Message, w: Message)
    ensures Accumulate([m, w], 2) == Chunks([[m, w]], [])
  {
    AccumulateSnoc([], m, 2);
    AccumulateSnoc([m], w, 2);
    assert [] + [m] == [m] && [m] + [w] == [m, w];
  }

  lemma ReachedThen(a: (bool, bool), b: (bool, bool)) returns (s: State, t: State)
    ensures GoodClients(LAYOUT, Clients(a, b)) && IsGoal(Clients(a, b), DESCRIBED) && IsGoal(Clients(a, b), AHEAD)
    ensures Reachable(Clients(a, b), s) && Typed(Clients(a, b), s) && AtGoal(Clients(a, b), s, DESCRIBED)
    ensures Reachable(Clients(a, b), t) && Typed(Clients(a, b), t) && AtGoal(Clients(a, b), t, AHEAD)
    ensures Extends(s, t)
  {
    hide GoodClients, Reachable, Typed, IsGoal, AtGoal, Below, Extends, Clients;
    ClientsAreGood(a, b);
    GoalsAreGoals(a, b);
    s := GoalReachable(LAYOUT, Clients(a, b), DESCRIBED);
    GoalsFollow(a, b, s);
    t := GoalReached(LAYOUT, Clients(a, b), s, AHEAD, M.Bound(Clients(a, b).Keys));
  }


  lemma ChunksThen(a: (bool, bool), b: (bool, bool), s: State, t: State)
    requires GoodClients(LAYOUT, Clients(a, b)) && IsGoal(Clients(a, b), DESCRIBED) && IsGoal(Clients(a, b), AHEAD)
    requires Reachable(Clients(a, b), s) && Typed(Clients(a, b), s) && AtGoal(Clients(a, b), s, DESCRIBED)
    requires Reachable(Clients(a, b), t) && Typed(Clients(a, b), t) && AtGoal(Clients(a, b), t, AHEAD) && Extends(s, t)
    ensures ChunksOf(t.server, MASK_MD) == Accumulate([MaskMessage(FIRST, a.0), MaskMessage(FIRST, a.1)], 2)
  {
    hide GoodClients, Reachable, Typed, IsGoal, AtGoal, Script, FieldMasks, Registered, ChunksOf, Accumulate, Extends, Parts,
         EncodedMask, SyncsIn;
    PrefixHolds(FIRST, a.0, a.1);
    PrefixHolds(SECOND, b.0, b.1);
    TwoParts();
    OneSender(LAYOUT, Clients(a, b), s, DESCRIBED, t, AHEAD, MASK_MD, FIRST);
  }

  lemma TwoParts()
    ensures Parts(LAYOUT, "grid").Keys == {FIRST, SECOND} && |Parts(LAYOUT, "grid")| == 2
  {
    assert Parts(LAYOUT, "grid").Keys == {FIRST, SECOND};
    assert |Parts(LAYOUT, "grid")| == |Parts(LAYOUT, "grid").Keys|;
  }

  // ---- the field that is built

  lemma OriginsIn(g: Grid)
    requires g.niGlobal == 2 && g.ibegin == g.jbegin == 0 && g.ni == g.nj == 1
    requires g.dataIbegin == g.dataJbegin == 0 && g.dataNi == g.dataNj == 1
    ensures OriginOf(g, 0) == At(0) && OriginOf(g, 1) == Nowhere
  {
    assert CellColumn(g, 0) == 0 && CellRow(g, 0) == 0 && CellColumn(g, 1) == 1;
    assert DataIndex(g, 0, 0) == Product(0, 1) == 0;
  }

  lemma OriginsOfFirst()
    ensures OriginOf(GridOf(Definition(FIRST)), 0) == At(0) && OriginOf(GridOf(Definition(FIRST)), 1) == Nowhere
  {
    hide OriginOf;
    OriginsIn(GridOf(Definition(FIRST)));
  }

  lemma FirstWritesItsCell(v: bool)
    ensures var dm, m := Full(LAYOUT, "grid"), MaskMessage(FIRST, v);
            Covers(dm, m, 0) && ValueAt(dm, m, 0) == v && !Covers(dm, m, 1)
  {
    OriginsOfFirst();
    PartOf(FIRST);
    S.ReadBack([v]);
    FirstIsFitted(v);
    hide EncodedMask, Fitted, Readable, Values, OriginOf, Definition, WellFormed, Aggregable, SoundLayout, DataSize;
  }

  lemma FirstIsFitted(v: bool)
    ensures Fitted(Full(LAYOUT, "grid"), MaskMessage(FIRST, v))
  {
    hide EncodedMask, WellFormed, Aggregable, Readable, Values, Fitting, SoundLayout, Parts, M.WellFormedMap, A.Fits;
    MaskFits(FIRST, v);
    FitsFull(LAYOUT, MaskMessage(FIRST, v));
    MaskIsPart(FIRST, v);
  }

  lemma CellsAre(b: D.Build, v: bool, w: bool)
    requires SoundLayout(LAYOUT) && BuildIs(LAYOUT, b) && b.md == MASK_MD
    requires b.parts == [MaskMessage(FIRST, v), MaskMessage(FIRST, w)]
    ensures b.cells == [w, false]
  {
    var dm := Full(LAYOUT, "grid");
    FirstWritesItsCell(v);
    FirstWritesItsCell(w);
    hide EncodedMask, A.Assembled, A.AllFit, Covers, ValueAt, SoundLayout;
    AssembledCell(dm, b.md, b.parts, 0);
    AssembledCell(dm, b.md, b.parts, 1);
    assert b.parts[1] == MaskMessage(FIRST, w);
  }

  /** The masks of these clients are not paced. In the run where the first client sends both of its
      masks before the second sends any, the server builds the field from the two masks of the first;
      the cell of the second client is false whatever it is going to send. */
  lemma BuiltFromOneClient(a: (bool, bool), b: (bool, bool)) returns (t: State)
    ensures GoodClients(LAYOUT, Clients(a, b)) && EqualSyncs(Clients(a, b)) && !Paced(LAYOUT, Clients(a, b), MASK_MD)
    ensures Reachable(Clients(a, b), t) && |BuildsOf(t.server.built, MASK_MD)| == 1
    ensures var build := BuildsOf(t.server.built, MASK_MD)[0];
            && build.parts == [MaskMessage(FIRST, a.0), MaskMessage(FIRST, a.1)]
            && build.cells == [a.1, false]
  {
    var s;
    s, t := ReachedThen(a, b);
    ChunksThen(a, b, s, t);
    OneMaskedRound(MaskMessage(FIRST, a.0), MaskMessage(FIRST, a.1));
    hide GoodClients, Reachable, Typed, IsGoal, AtGoal, Script, FieldMasks, Extends, EncodedMask, BuildsOf, PartsOf, Paced,
         EqualSyncs, BuildIs, SoundLayout;
    BuildsHaveParts(t.server.built, MASK_MD);
    var build := BuildsOf(t.server.built, MASK_MD)[0];
    BuildHere(LAYOUT, Clients(a, b), t, build);
    CellsAre(build, a.0, a.1);
    NoSyncsEqual(a, b);
    NotPaced(a, b, t);
  }

  lemma NoSyncsEqual(a: (bool, bool), b: (bool, bool))
    ensures EqualSyncs(Clients(a, b))
  {
    hide EncodedMask, Script, SyncsIn, FieldMasks, Registered;
    PrefixHolds(FIRST, a.0, a.1);
    PrefixHolds(SECOND, b.0, b.1);
    forall p | p in Clients(a, b) ensures SyncsIn(Clients(a, b)[p]) == 0 {
      assert Clients(a, b)[p][..5] == Clients(a, b)[p];
    }
  }

  lemma NotPaced(a: (bool, bool), b: (bool, bool), t: State)
    requires GoodClients(LAYOUT, Clients(a, b)) && Reachable(Clients(a, b), t)
    requires PartsOf(t.server.built, MASK_MD) == [[MaskMessage(FIRST, a.0), MaskMessage(FIRST, a.1)]]
    ensures !Paced(LAYOUT, Clients(a, b), MASK_MD)
  {
    hide GoodClients, Reachable, Script, PartsOf, Paced, EncodedMask;
    var parts := PartsOf(t.server.built, MASK_MD)[0];
    assert parts[0].source == parts[1].source;
    if Paced(LAYOUT, Clients(a, b), MASK_MD) {
      PartsDiffer(LAYOUT, Clients(a, b), t, MASK_MD, 0);
    }
  }
}
