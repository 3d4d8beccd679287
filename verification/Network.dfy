/** The whole protocol: clients send their scripts over FIFO channels, the listener receives from
    them in any interleaving, and the dispatcher handles the queue, each at its own pace. */
module Network {
  import opened Bits
  import opened Domains
  import opened Messages
  import opened MaskRoundTrip
  import opened Rounds
  import opened FieldAssembly
  import opened GlobalMask
  import opened Sets
  import A = MaskAssembly
  import MaskRuns
  import D = Dispatcher
  import L = Listener
  import M = Mappings

  /** `received` is everything the listener has received, and the dispatcher has handled the first
      `handled` messages of the listener's queue. */
  datatype State = State(sent: map<Peer, nat>, channels: map<Peer, seq<Message>>, received: seq<Message>,
                         listener: L.State, handled: nat, server: D.Server)

  type Scripts = map<Peer, seq<Message>>

  function Initial(scripts: Scripts): State {
    State(map p | p in scripts :: 0, map p | p in scripts :: [], [], L.START, 0, D.IDLE)
  }

  function SyncsIn(ms: seq<Message>): nat {
    |Filter(ms, IsSync)|
  }

  ghost predicate Typed(scripts: Scripts, s: State) {
    && s.sent.Keys == scripts.Keys && s.channels.Keys == scripts.Keys
    && (forall p :: p in scripts ==> s.sent[p] <= |scripts[p]|)
    && s.handled <= |s.listener.queue| && D.Sane(s.server)
  }

  function Handled(s: State): seq<Message>
    requires s.handled <= |s.listener.queue|
  {
    s.listener.queue[..s.handled]
  }

  // ---- steps

  /** A client that has sent a synchronization waits at the barrier until the dispatcher enters it. */
  ghost predicate CanSend(scripts: Scripts, s: State, p: Peer)
    requires Typed(scripts, s)
  {
    p in scripts && s.sent[p] < |scripts[p]| && SyncsIn(scripts[p][..s.sent[p]]) <= SyncsIn(Handled(s))
  }

  function Send(scripts: Scripts, s: State, p: Peer): State
    requires Typed(scripts, s) && CanSend(scripts, s, p)
  {
    s.(sent := s.sent[p := s.sent[p] + 1], channels := s.channels[p := s.channels[p] + [scripts[p][s.sent[p]]]])
  }

  ghost predicate CanReceive(scripts: Scripts, s: State, p: Peer)
    requires Typed(scripts, s)
  {
    && p in scripts && s.channels[p] != []
    && (s.received == [] || L.MoreConnections(|scripts|, s.listener))
    && L.CanReceive(s.listener, s.channels[p][0])
  }

  function Receive(scripts: Scripts, s: State, p: Peer): State
    requires Typed(scripts, s) && CanReceive(scripts, s, p)
  {
    var m := s.channels[p][0];
    s.(channels := s.channels[p := s.channels[p][1..]], received := s.received + [m],
       listener := L.Step(|scripts|, s.listener, m))
  }

  ghost predicate CanDispatch(scripts: Scripts, s: State)
    requires Typed(scripts, s)
  {
    && s.handled < |s.listener.queue|
    && var m := s.listener.queue[s.handled];
       D.Proper(m) && D.CanHandle(s.server, m)
  }

  ghost function Dispatch(scripts: Scripts, s: State): State
    requires Typed(scripts, s) && CanDispatch(scripts, s)
  {
    s.(handled := s.handled + 1, server := D.Handle(s.server, s.listener.queue[s.handled]))
  }

  ghost predicate Next(scripts: Scripts, s: State, s': State)
    requires Typed(scripts, s)
  {
    || (exists p :: CanSend(scripts, s, p) && s' == Send(scripts, s, p))
    || (exists p :: CanReceive(scripts, s, p) && s' == Receive(scripts, s, p))
    || (CanDispatch(scripts, s) && s' == Dispatch(scripts, s))
  }

  ghost predicate IsRun(scripts: Scripts, run: seq<State>) {
    if |run| <= 1 then run == [Initial(scripts)]
    else
      var init := run[..|run| - 1];
      IsRun(scripts, init) && Typed(scripts, init[|init| - 1]) && Next(scripts, init[|init| - 1], run[|run| - 1])
  }

  ghost predicate Reachable(scripts: Scripts, s: State) {
    exists run :: run != [] && IsRun(scripts, run) && run[|run| - 1] == s
  }

  // ---- what the clients are taken to do

  /** Every client opens first and closes last, agrees with the layout, and describes its domain
      before it sends masks on it. */
  ghost predicate GoodClients(layout: Layout, scripts: Scripts) {
    && SoundLayout(layout) && L.Clients(scripts)
    && (forall p :: p in scripts ==> WellOrdered(layout, scripts[p]))
    && (forall name :: name in layout.domains ==> layout.domains[name].Keys != {} && layout.domains[name].Keys <= scripts.Keys)
  }

  /** Every client synchronizes at least this often. */
  predicate Attained(scripts: Scripts, k: nat) {
    forall p :: p in scripts ==> k <= SyncsIn(scripts[p])
  }

  /** When a client sends a mask of the field for the (r + 1)-th time, it has sent so many
      synchronizations that every other peer of the field needs to have sent r masks to follow. Masks
      that come after more synchronizations than every client sends do not matter: they are never
      sent. A field that every client sends once is always paced, and so is one with a single peer. */
  ghost predicate Paced(layout: Layout, scripts: Scripts, md: Metadata) {
    forall p, q, i: nat, j: nat ::
      p in Parts(layout, md.domain) && q in Parts(layout, md.domain) && p in scripts && q in scripts && p != q ==>
      PacedAt(scripts, scripts[p], scripts[q], md, i, j)
  }

  ghost predicate PacedAt(scripts: Scripts, mine: seq<Message>, other: seq<Message>, md: Metadata, i: nat, j: nat) {
    && i < |mine| && IsMaskOf(md)(mine[i]) && Attained(scripts, SyncsIn(mine[..i]))
    && j <= |other| && SyncsIn(mine[..i]) <= SyncsIn(other[..j])
    ==> |FieldMasks(mine[..i], md)| <= |FieldMasks(other[..j], md)|
  }

  // ---- the queue and what was received

  /** Queueing keeps the order of domains and masks. */
  lemma {:induction false} QueueOrdered(layout: Layout, n: nat, ms: seq<Message>)
    requires SoundLayout(layout) && WellOrdered(layout, ms)
    ensures WellOrdered(layout, L.Run(n, ms).queue)
    ensures forall name :: Registered(L.Run(n, ms).queue, name) == Registered(ms, name)
    ensures forall md :: FieldMasks(L.Run(n, ms).queue, md) == FieldMasks(ms, md)
    decreases |ms|
  {
    if ms != [] {
      var init, m := ms[..|ms| - 1], ms[|ms| - 1];
      assert ms == init + [m];
      QueueOrdered(layout, n, init);
      QueueStep(layout, n, init, m);
    }
  }

  lemma QueueStep(layout: Layout, n: nat, ms: seq<Message>, m: Message)
    requires SoundLayout(layout) && Follows(layout, ms, m) && WellOrdered(layout, L.Run(n, ms).queue)
    requires forall name :: Registered(L.Run(n, ms).queue, name) == Registered(ms, name)
    requires forall md :: FieldMasks(L.Run(n, ms).queue, md) == FieldMasks(ms, md)
    ensures WellOrdered(layout, L.Run(n, ms + [m]).queue)
    ensures forall name :: Registered(L.Run(n, ms + [m]).queue, name) == Registered(ms + [m], name)
    ensures forall md :: FieldMasks(L.Run(n, ms + [m]).queue, md) == FieldMasks(ms + [m], md)
  {
    hide Fitting, Filter;
    var queue := L.Run(n, ms).queue;
    L.RunSnoc(n, ms, m);
    WellOrderedSnoc(layout, queue, m);
    forall name
      ensures Registered(queue + [m], name) == Registered(ms + [m], name)
      ensures !m.body.DomainPart? ==> Registered(ms + [m], name) == Registered(ms, name)
    {
      RegisteredSnoc(queue, m, name);
      RegisteredSnoc(ms, m, name);
    }
    forall md
      ensures FieldMasks(queue + [m], md) == FieldMasks(ms + [m], md)
      ensures !m.body.MaskPart? ==> FieldMasks(ms + [m], md) == FieldMasks(ms, md)
    {
      FieldMasksSnoc(queue, m, md);
      FieldMasksSnoc(ms, m, md);
    }
  }

  lemma {:induction false} WellOrderedPrefix(layout: Layout, h: seq<Message>, k: nat)
    requires SoundLayout(layout) && WellOrdered(layout, h) && k <= |h|
    ensures WellOrdered(layout, h[..k])
    decreases |h|
  {
    if k < |h| {
      var init := h[..|h| - 1];
      assert init[..k] == h[..k];
      WellOrderedPrefix(layout, init, k);
    } else {
      assert h[..k] == h;
    }
  }

  lemma WellOrderedAt(layout: Layout, h: seq<Message>, i: nat)
    requires SoundLayout(layout) && WellOrdered(layout, h) && i < |h|
    ensures Follows(layout, h[..i], h[i])
  {
    WellOrderedPrefix(layout, h, i + 1);
    assert h[..i + 1] == h[..i] + [h[i]];
    WellOrderedSnoc(layout, h[..i], h[i]);
  }

  /** What a client has described in its own messages is described in all. */
  lemma {:induction false} RegisteredFrom(ms: seq<Message>, p: Peer, name: string)
    requires p in Registered(From(ms, p), name)
    ensures p in Registered(ms, name)
    decreases |ms|
  {
    if ms != [] {
      var init, m := ms[..|ms| - 1], ms[|ms| - 1];
      assert ms == init + [m];
      FromSnoc(init, m, p);
      RegisteredSnoc(init, m, name);
      if m.source == p {
        RegisteredSnoc(From(init, p), m, name);
      } else {
        assert From(ms, p) == From(init, p);
      }
      if p in Registered(From(init, p), name) {
        RegisteredFrom(init, p, name);
      }
    }
  }

  /** The messages of a peer that satisfy a predicate can be selected in either order. */
  lemma {:induction false} FromFilter(ms: seq<Message>, f: Message -> bool, p: Peer)
    ensures From(Filter(ms, f), p) == Filter(From(ms, p), f)
    decreases |ms|
  {
    if ms != [] {
      var init, m := ms[..|ms| - 1], ms[|ms| - 1];
      assert ms == init + [m];
      FromFilter(init, f, p);
      FilterSnoc(init, m, f);
      FromSnoc(init, m, p);
      FromSnoc(Filter(init, f), m, p);
      FilterSnoc(From(init, p), m, f);
      if !f(m) {
        assert Filter(init, f) + [] == Filter(init, f);
      }
      if m.source != p {
        assert From(init, p) + [] == From(init, p);
      }
    }
  }

  lemma CountOf(ms: seq<Message>, f: Message -> bool, p: Peer)
    ensures Count(Sources(Filter(ms, f)), p) == |Filter(From(ms, p), f)|
  {
    FromFilter(ms, f, p);
    CountIsFrom(Filter(ms, f), p);
  }

  // ---- the invariant

  function Queued(s: State): nat {
    SyncsIn(s.listener.queue)
  }

  /** What a client has sent is what the listener has received from it and what is in its channel. */
  ghost predicate Channelled(scripts: Scripts, s: State)
    requires Typed(scripts, s)
  {
    && (forall i :: 0 <= i < |s.received| ==> s.received[i].source in scripts)
    && (forall p :: p in scripts ==> From(s.received, p) + s.channels[p] == scripts[p][..s.sent[p]])
  }

  /** A message has been sent only after the synchronizations before it were queued. */
  ghost predicate Passed(scripts: Scripts, s: State)
    requires Typed(scripts, s)
  {
    forall p, i: nat :: p in scripts && i < s.sent[p] ==> SyncsIn(scripts[p][..i]) <= Queued(s)
  }

  ghost predicate Invariant(layout: Layout, scripts: Scripts, s: State)
    requires SoundLayout(layout)
  {
    && Typed(scripts, s) && Channelled(scripts, s) && Passed(scripts, s)
    && s.listener == L.Run(|scripts|, s.received)
    && D.CanServe(Handled(s)) && s.server == D.Serve(Handled(s))
    && WellOrdered(layout, s.received)
    && Lockstep(Sources(Filter(s.received, IsSync)), scripts.Keys)
  }

  lemma InvariantInitially(layout: Layout, scripts: Scripts)
    requires GoodClients(layout, scripts)
    ensures Invariant(layout, scripts, Initial(scripts))
  {
    hide WellFormed, L.Clients;
  }

  lemma {:induction false} FilterGrows(a: seq<Message>, k: nat, f: Message -> bool)
    requires k <= |a|
    ensures Filter(a[..k], f) <= Filter(a, f)
    decreases |a|
  {
    if k < |a| {
      var init := a[..|a| - 1];
      assert init[..k] == a[..k];
      FilterGrows(init, k, f);
    } else {
      assert a[..k] == a;
    }
  }

  lemma AppendOne(a: seq<Message>, b: seq<Message>, m: Message)
    ensures a + (b + [m]) == a + b + [m]
  {
  }

  lemma SendChannelled(scripts: Scripts, s: State, p: Peer)
    requires Typed(scripts, s) && Channelled(scripts, s) && CanSend(scripts, s, p)
    ensures Typed(scripts, Send(scripts, s, p)) && Channelled(scripts, Send(scripts, s, p))
  {
    hide D.Sane, From, Filter;
    var n := s.sent[p];
    assert scripts[p][..n + 1] == scripts[p][..n] + [scripts[p][n]];
    AppendOne(From(s.received, p), s.channels[p], scripts[p][n]);
  }

  lemma SendPassed(scripts: Scripts, s: State, p: Peer)
    requires Typed(scripts, s) && Passed(scripts, s) && CanSend(scripts, s, p)
    ensures Typed(scripts, Send(scripts, s, p)) && Passed(scripts, Send(scripts, s, p))
  {
    hide D.Sane, Filter;
    var s' := Send(scripts, s, p);
    FilterGrows(s.listener.queue, s.handled, IsSync);
    forall q, i: nat | q in scripts && i < s'.sent[q] ensures SyncsIn(scripts[q][..i]) <= Queued(s') {
      assert (q == p && i == s.sent[p]) || i < s.sent[q];
    }
  }

  lemma SendKeeps(layout: Layout, scripts: Scripts, s: State, p: Peer)
    requires SoundLayout(layout) && Invariant(layout, scripts, s) && CanSend(scripts, s, p)
    ensures Invariant(layout, scripts, Send(scripts, s, p))
  {
    hide L.Run, WellOrdered, Lockstep, D.Sane, D.Serve, D.CanServe, Filter, Channelled, Passed, SoundLayout;
    SendChannelled(scripts, s, p);
    SendPassed(scripts, s, p);
  }

  /** The next message from a client is the first of its script that was not received yet. */
  lemma NextReceived(layout: Layout, scripts: Scripts, s: State, p: Peer)
    requires GoodClients(layout, scripts) && Invariant(layout, scripts, s) && p in scripts && s.channels[p] != []
    ensures var i, m := |From(s.received, p)|, s.channels[p][0];
            && i < s.sent[p] <= |scripts[p]| && m == scripts[p][i] && m.source == p
            && From(s.received, p) == scripts[p][..i]
            && SyncsIn(scripts[p][..i]) <= Queued(s)
            && Follows(layout, scripts[p][..i], m)
  {
    hide L.Run, D.Sane, D.Serve, D.CanServe, Filter, Lockstep, Follows, WellOrdered;
    var i := |From(s.received, p)|;
    assert From(s.received, p) + s.channels[p] == scripts[p][..s.sent[p]];
    assert (From(s.received, p) + s.channels[p])[i] == s.channels[p][0];
    assert scripts[p][..i] == scripts[p][..s.sent[p]][..i];
    assert L.WellBehaved(p, scripts[p]);
    WellOrderedAt(layout, scripts[p], i);
  }

  lemma ReceiveChannelled(scripts: Scripts, s: State, p: Peer)
    requires Typed(scripts, s) && Channelled(scripts, s) && CanReceive(scripts, s, p) && s.channels[p][0].source == p
    ensures Typed(scripts, Receive(scripts, s, p)) && Channelled(scripts, Receive(scripts, s, p))
  {
    hide D.Sane, From, L.CanReceive, L.MoreConnections;
    var s', m := Receive(scripts, s, p), s.channels[p][0];
    forall q | q in scripts ensures From(s'.received, q) + s'.channels[q] == scripts[q][..s'.sent[q]] {
      FromSnoc(s.received, m, q);
      if q == p {
        assert From(s.received, p) + [m] + s.channels[p][1..] == From(s.received, p) + s.channels[p];
      }
    }
  }

  lemma ReceiveQueue(scripts: Scripts, s: State, p: Peer)
    requires Typed(scripts, s) && CanReceive(scripts, s, p)
    ensures var s' := Receive(scripts, s, p);
            && s.listener.queue <= s'.listener.queue && s.handled <= |s'.listener.queue|
            && Handled(s') == Handled(s) && Queued(s) <= Queued(s')
  {
    hide D.Sane, Filter;
    var s' := Receive(scripts, s, p);
    assert s'.listener.queue[..|s.listener.queue|] == s.listener.queue;
    FilterGrows(s'.listener.queue, |s.listener.queue|, IsSync);
  }

  lemma ReceivePassed(scripts: Scripts, s: State, p: Peer)
    requires Typed(scripts, s) && Passed(scripts, s) && CanReceive(scripts, s, p)
    ensures Typed(scripts, Receive(scripts, s, p)) && Passed(scripts, Receive(scripts, s, p))
  {
    hide D.Sane, L.CanReceive, L.MoreConnections, L.Step;
    ReceiveQueue(scripts, s, p);
  }

  lemma ReceiveOrdered(layout: Layout, scripts: Scripts, s: State, p: Peer)
    requires GoodClients(layout, scripts) && Invariant(layout, scripts, s) && CanReceive(scripts, s, p)
    ensures Follows(layout, s.received, s.channels[p][0])
    ensures WellOrdered(layout, s.received + [s.channels[p][0]])
  {
    var m := s.channels[p][0];
    NextReceived(layout, scripts, s, p);
    hide GoodClients, Invariant, CanReceive, Fitting, Registered;
    if m.body.MaskPart? {
      RegisteredFrom(s.received, p, m.md.domain);
    }
    WellOrderedSnoc(layout, s.received, m);
  }

  /** In lockstep every peer has sent as many synchronizations as were queued, or one more, and some
      peer has not sent one more. */
  lemma QueuedByAll(peers: set<Peer>, ms: seq<Message>, q: Peer)
    requires peers != {} && q in peers && Lockstep(Sources(Filter(ms, IsSync)), peers)
    ensures SyncsIn(L.Run(|peers|, ms).queue) <= SyncsIn(From(ms, q)) <= SyncsIn(L.Run(|peers|, ms).queue) + 1
    ensures Count(Sources(Filter(ms, IsSync)), q) == SyncsIn(From(ms, q))
    ensures exists c :: c in peers && SyncsIn(From(ms, c)) == SyncsIn(L.Run(|peers|, ms).queue)
  {
    var syncs := Filter(ms, IsSync);
    L.SizePositive(peers);
    QueueCounts(|peers|, ms);
    RoundsIffLockstep(syncs, peers);
    RoundsCount(syncs, peers);
    hide Filter, Lockstep, AreRounds, Accumulate, Sources, L.Run, From, Count;
    CountOf(ms, IsSync, q);
    var current := Sources(Accumulate(syncs, |peers|).pending);
    var c := SomeoneMissing(peers, Members(current));
    assert c !in current;
    CountOf(ms, IsSync, c);
  }

  lemma QueueCounts(n: nat, ms: seq<Message>)
    requires n >= 1
    ensures SyncsIn(L.Run(n, ms).queue) == |Accumulate(Filter(ms, IsSync), n).complete|
  {
    L.QueueHolds(n, ms);
    L.LastsSize(Filter(ms, IsSync), n);
  }

  lemma NextSync(peers: set<Peer>, ms: seq<Message>, m: Message)
    requires peers != {} && m.source in peers && Lockstep(Sources(Filter(ms, IsSync)), peers)
    requires IsSync(m) ==> SyncsIn(From(ms, m.source)) <= SyncsIn(L.Run(|peers|, ms).queue)
    ensures Lockstep(Sources(Filter(ms + [m], IsSync)), peers)
  {
    var syncs := Filter(ms, IsSync);
    FilterSnoc(ms, m, IsSync);
    if IsSync(m) {
      SourcesSnoc(syncs, m);
      LockstepSnoc(Sources(syncs), m.source, peers);
      hide Filter, Lockstep, Sources, L.Run, From, Count;
      QueuedByAll(peers, ms, m.source);
      forall q | q in peers ensures Count(Sources(syncs), m.source) <= Count(Sources(syncs), q) {
        QueuedByAll(peers, ms, q);
      }
    } else {
      assert Filter(ms + [m], IsSync) == syncs;
    }
  }

  lemma ReceiveLockstep(layout: Layout, scripts: Scripts, s: State, p: Peer)
    requires GoodClients(layout, scripts) && Invariant(layout, scripts, s) && CanReceive(scripts, s, p)
    ensures Lockstep(Sources(Filter(s.received + [s.channels[p][0]], IsSync)), scripts.Keys)
  {
    hide WellOrdered, Lockstep, D.Sane, D.Serve, D.CanServe, Filter, Channelled, Passed, SoundLayout, L.Run, From;
    NextReceived(layout, scripts, s, p);
    assert |scripts| == |scripts.Keys|;
    NextSync(scripts.Keys, s.received, s.channels[p][0]);
  }

  lemma ReceiveKeeps(layout: Layout, scripts: Scripts, s: State, p: Peer)
    requires GoodClients(layout, scripts) && Invariant(layout, scripts, s) && CanReceive(scripts, s, p)
    ensures Invariant(layout, scripts, Receive(scripts, s, p))
  {
    hide WellOrdered, Lockstep, D.Sane, D.Serve, D.CanServe, Filter, Channelled, Passed, SoundLayout;
    NextReceived(layout, scripts, s, p);
    ReceiveChannelled(scripts, s, p);
    ReceivePassed(scripts, s, p);
    ReceiveQueue(scripts, s, p);
    ReceiveOrdered(layout, scripts, s, p);
    ReceiveLockstep(layout, scripts, s, p);
    L.RunSnoc(|scripts|, s.received, s.channels[p][0]);
  }

  lemma DispatchKeeps(layout: Layout, scripts: Scripts, s: State)
    requires SoundLayout(layout) && Invariant(layout, scripts, s) && CanDispatch(scripts, s)
    ensures Invariant(layout, scripts, Dispatch(scripts, s))
  {
    hide WellOrdered, Lockstep, Filter, SoundLayout, From;
    var queue := s.listener.queue;
    assert queue[..s.handled + 1] == Handled(s) + [queue[s.handled]];
    D.ServeSnoc(Handled(s), queue[s.handled]);
  }

  /** A run of more than one state is a shorter run and a step from its last state. */
  lemma LastStep(scripts: Scripts, run: seq<State>) returns (init: seq<State>)
    requires |run| > 1 && IsRun(scripts, run)
    ensures init == run[..|run| - 1] && IsRun(scripts, init)
    ensures Typed(scripts, init[|init| - 1]) && Next(scripts, init[|init| - 1], run[|run| - 1])
  {
    hide Typed, Next, Initial;
    init := run[..|run| - 1];
  }

  lemma {:induction false} RunKeeps(layout: Layout, scripts: Scripts, run: seq<State>)
    requires GoodClients(layout, scripts) && run != [] && IsRun(scripts, run)
    ensures Invariant(layout, scripts, run[|run| - 1])
    decreases |run|
  {
    hide Invariant, Typed, Next, GoodClients, Initial;
    if |run| == 1 {
      InvariantInitially(layout, scripts);
    } else {
      hide IsRun;
      var init := LastStep(scripts, run);
      RunKeeps(layout, scripts, init);
      NextKeeps(layout, scripts, init[|init| - 1], run[|run| - 1]);
    }
  }

  lemma NextKeeps(layout: Layout, scripts: Scripts, s: State, s': State)
    requires GoodClients(layout, scripts) && Invariant(layout, scripts, s) && Next(scripts, s, s')
    ensures Invariant(layout, scripts, s')
  {
    var sound := SoundLayout(layout);
    assert sound;
    hide Invariant, CanSend, CanReceive, CanDispatch, GoodClients, Send, Receive, Dispatch;
    if p :| CanSend(scripts, s, p) && s' == Send(scripts, s, p) {
      SendKeeps(layout, scripts, s, p);
    } else if p :| CanReceive(scripts, s, p) && s' == Receive(scripts, s, p) {
      ReceiveKeeps(layout, scripts, s, p);
    } else {
      DispatchKeeps(layout, scripts, s);
    }
  }

  lemma ReachableKeeps(layout: Layout, scripts: Scripts, s: State)
    requires GoodClients(layout, scripts) && Reachable(scripts, s)
    ensures Invariant(layout, scripts, s)
  {
    var run :| run != [] && IsRun(scripts, run) && run[|run| - 1] == s;
    RunKeeps(layout, scripts, run);
  }

  // ---- no exceptions

  lemma InterleavedNow(layout: Layout, scripts: Scripts, s: State)
    requires GoodClients(layout, scripts) && Invariant(layout, scripts, s)
    ensures L.Interleaved(scripts, s.received)
  {
    hide WellOrdered, Lockstep, D.Sane, D.Serve, D.CanServe, Filter, Passed, SoundLayout, L.Run;
    forall p | p in scripts ensures From(s.received, p) <= scripts[p] {
      assert From(s.received, p) <= From(s.received, p) + s.channels[p] == scripts[p][..s.sent[p]] <= scripts[p];
    }
  }

  lemma InterleavedNext(layout: Layout, scripts: Scripts, s: State, p: Peer)
    requires GoodClients(layout, scripts) && Invariant(layout, scripts, s) && p in scripts && s.channels[p] != []
    ensures L.Interleaved(scripts, s.received) && L.Interleaved(scripts, s.received + [s.channels[p][0]])
  {
    NextReceived(layout, scripts, s, p);
    InterleavedNow(layout, scripts, s);
    hide From, GoodClients, Invariant, L.Interleaved;
    L.InterleavedSnoc(scripts, s.received, s.channels[p][0]);
  }

  /** In every reachable state, the next message on any channel is received without an exception, the
      listener has not stopped before it, and the next message of the queue is handled without an
      exception. */
  lemma NeverRaises(layout: Layout, scripts: Scripts, s: State)
    requires GoodClients(layout, scripts) && Reachable(scripts, s)
    ensures Typed(scripts, s)
    ensures forall p :: p in scripts && s.channels[p] != [] ==> CanReceive(scripts, s, p)
    ensures s.handled < |s.listener.queue| ==> CanDispatch(scripts, s)
  {
    ReachableKeeps(layout, scripts, s);
    forall p | p in scripts && s.channels[p] != [] ensures CanReceive(scripts, s, p) {
      ReceivesNext(layout, scripts, s, p);
    }
    if s.handled < |s.listener.queue| {
      DispatchesNext(layout, scripts, s);
    }
  }

  /** Nothing but the barrier restricts a client: whenever it has something left, and all its
      synchronizations were handled, it can put its next message on its channel. */
  lemma AnyClientSends(scripts: Scripts, s: State, p: Peer)
    requires Typed(scripts, s) && p in scripts && s.sent[p] < |scripts[p]|
    requires SyncsIn(scripts[p][..s.sent[p]]) <= SyncsIn(Handled(s))
    ensures Next(scripts, s, s.(sent := s.sent[p := s.sent[p] + 1],
                                channels := s.channels[p := s.channels[p] + [scripts[p][s.sent[p]]]]))
  {
    hide SyncsIn, D.Sane, CanReceive, CanDispatch;
    assert CanSend(scripts, s, p);
  }

  lemma PartsOfState(layout: Layout, scripts: Scripts, s: State)
    requires GoodClients(layout, scripts) && Reachable(scripts, s)
    ensures Typed(scripts, s) && s.listener == L.Run(|scripts|, s.received)
    ensures D.CanServe(Handled(s)) && s.server == D.Serve(Handled(s))
  {
    ReachableKeeps(layout, scripts, s);
  }

  lemma ReceiveIsNext(scripts: Scripts, s: State, p: Peer)
    requires Typed(scripts, s) && CanReceive(scripts, s, p)
    ensures Next(scripts, s, s.(channels := s.channels[p := s.channels[p][1..]],
                                received := s.received + [s.channels[p][0]],
                                listener := L.Step(|scripts|, s.listener, s.channels[p][0])))
  {
    hide D.Sane, CanSend, CanDispatch, L.CanReceive, L.MoreConnections, L.Step;
  }

  /** In every reachable state the head of any channel can be received. */
  lemma AnyHeadIsReceived(layout: Layout, scripts: Scripts, s: State, p: Peer)
    requires GoodClients(layout, scripts) && Reachable(scripts, s)
    requires Typed(scripts, s) && p in scripts && s.channels[p] != []
    ensures Next(scripts, s, s.(channels := s.channels[p := s.channels[p][1..]],
                                received := s.received + [s.channels[p][0]],
                                listener := L.Run(|scripts|, s.received + [s.channels[p][0]])))
  {
    hide GoodClients, Reachable, D.Sane, CanSend, CanReceive, CanDispatch, L.Run, L.Step, Next;
    PartsOfState(layout, scripts, s);
    NeverRaises(layout, scripts, s);
    ReceiveIsNext(scripts, s, p);
    L.RunSnoc(|scripts|, s.received, s.channels[p][0]);
  }

  lemma DispatchIsNext(scripts: Scripts, s: State)
    requires Typed(scripts, s) && CanDispatch(scripts, s)
    ensures Next(scripts, s, s.(handled := s.handled + 1, server := D.Handle(s.server, s.listener.queue[s.handled])))
  {
    hide CanSend, CanReceive, D.Proper, D.CanHandle, D.Handle;
  }

  /** In every reachable state the head of the queue can be handled. */
  lemma HeadIsHandled(layout: Layout, scripts: Scripts, s: State)
    requires GoodClients(layout, scripts) && Reachable(scripts, s) && Typed(scripts, s) && s.handled < |s.listener.queue|
    ensures D.CanServe(Handled(s) + [s.listener.queue[s.handled]])
    ensures Next(scripts, s, s.(handled := s.handled + 1, server := D.Serve(Handled(s) + [s.listener.queue[s.handled]])))
  {
    hide GoodClients, Reachable, CanSend, CanReceive, D.Serve, D.CanServe, D.Proper, D.CanHandle, D.Handle, Next;
    PartsOfState(layout, scripts, s);
    NeverRaises(layout, scripts, s);
    DispatchIsNext(scripts, s);
    D.ServeSnoc(Handled(s), s.listener.queue[s.handled]);
  }

  lemma ReceivesNext(layout: Layout, scripts: Scripts, s: State, p: Peer)
    requires GoodClients(layout, scripts) && Invariant(layout, scripts, s) && p in scripts && s.channels[p] != []
    ensures CanReceive(scripts, s, p)
  {
    InterleavedNext(layout, scripts, s, p);
    hide WellOrdered, Lockstep, Filter, Passed, SoundLayout, L.Run, Channelled, L.Interleaved, L.AllSent, L.Clients;
    var m := s.channels[p][0];
    L.MoreUntilAllSent(scripts, s.received);
    NotAllSent(layout, scripts, s, p);
    L.ConnectionsAre(scripts, |scripts|, s.received + [m]);
    assert (s.received + [m])[..|s.received|] == s.received;
    assert (s.received + [m])[|s.received|] == m;
  }

  lemma NotAllSent(layout: Layout, scripts: Scripts, s: State, p: Peer)
    requires GoodClients(layout, scripts) && Invariant(layout, scripts, s) && p in scripts && s.channels[p] != []
    ensures !L.AllSent(scripts, s.received)
  {
    NextReceived(layout, scripts, s, p);
  }

  lemma HandlesNext(layout: Layout, queue: seq<Message>, k: nat)
    requires SoundLayout(layout) && WellOrdered(layout, queue) && k < |queue|
    ensures D.CanServe(queue[..k]) && D.Proper(queue[k]) && D.CanHandle(D.Serve(queue[..k]), queue[k])
  {
    hide D.Handle, D.CanHandle, D.Proper, Holds, Follows;
    WellOrderedPrefix(layout, queue, k + 1);
    HoldsAlways(layout, queue[..k + 1]);
    assert queue[..k + 1] == queue[..k] + [queue[k]];
    assert queue[..k + 1][..k] == queue[..k];
  }

  lemma DispatchesNext(layout: Layout, scripts: Scripts, s: State)
    requires GoodClients(layout, scripts) && Invariant(layout, scripts, s) && s.handled < |s.listener.queue|
    ensures CanDispatch(scripts, s)
  {
    hide D.Handle, D.CanHandle, D.Proper, D.Serve, D.CanServe, WellOrdered, Lockstep, Filter, Passed, L.Run, Channelled;
    QueueOrdered(layout, |scripts|, s.received);
    HandlesNext(layout, s.listener.queue, s.handled);
  }

  // ---- rounds of a field

  ghost predicate InStep(layout: Layout, s: State, md: Metadata) {
    Lockstep(Sources(FieldMasks(s.received, md)), Parts(layout, md.domain).Keys)
  }

  /** A prefix of each script has been received, with all synchronizations that were queued. */
  lemma ReceivedFrom(layout: Layout, scripts: Scripts, s: State, q: Peer)
    requires GoodClients(layout, scripts) && Invariant(layout, scripts, s) && q in scripts
    ensures |From(s.received, q)| <= |scripts[q]| && From(s.received, q) == scripts[q][..|From(s.received, q)|]
    ensures Queued(s) <= SyncsIn(From(s.received, q))
  {
    hide WellOrdered, Lockstep, D.Sane, D.Serve, D.CanServe, Filter, Passed, SoundLayout, L.Run, From, Channelled;
    assert |scripts| == |scripts.Keys|;
    InterleavedNow(layout, scripts, s);
    QueuedByAll(scripts.Keys, s.received, q);
  }

  /** What was queued, every client sends. */
  lemma QueuedAttained(layout: Layout, scripts: Scripts, s: State, k: nat)
    requires GoodClients(layout, scripts) && Invariant(layout, scripts, s) && k <= Queued(s)
    ensures Attained(scripts, k)
  {
    hide GoodClients, Invariant, Filter, From;
    forall r | r in scripts ensures k <= SyncsIn(scripts[r]) {
      ReceivedFrom(layout, scripts, s, r);
      FilterGrows(scripts[r], |From(s.received, r)|, IsSync);
    }
  }

  lemma PartsAreClients(layout: Layout, scripts: Scripts, name: string, p: Peer)
    requires GoodClients(layout, scripts) && p in Parts(layout, name)
    ensures p in scripts
  {
    hide WellOrdered, SoundLayout, L.Clients;
    assert p in layout.domains[name].Keys;
  }

  lemma PacedBetween(layout: Layout, scripts: Scripts, md: Metadata, p: Peer, q: Peer, i: nat, j: nat)
    requires Paced(layout, scripts, md)
    requires p in Parts(layout, md.domain) && q in Parts(layout, md.domain) && p in scripts && q in scripts && p != q
    requires i < |scripts[p]| && IsMaskOf(md)(scripts[p][i]) && Attained(scripts, SyncsIn(scripts[p][..i]))
    requires j <= |scripts[q]| && SyncsIn(scripts[p][..i]) <= SyncsIn(scripts[q][..j])
    ensures |FieldMasks(scripts[p][..i], md)| <= |FieldMasks(scripts[q][..j], md)|
  {
    hide FieldMasks, SyncsIn, Attained, Parts;
    assert PacedAt(scripts, scripts[p], scripts[q], md, i, j);
  }

  /** When a client's mask of a paced field arrives, every peer of the field has sent as many. */
  lemma MasksOfOthers(layout: Layout, scripts: Scripts, s: State, md: Metadata, p: Peer, q: Peer)
    requires GoodClients(layout, scripts) && Invariant(layout, scripts, s) && CanReceive(scripts, s, p)
    requires Paced(layout, scripts, md)
    requires p in Parts(layout, md.domain) && q in Parts(layout, md.domain) && p != q && IsMaskOf(md)(s.channels[p][0])
    ensures |FieldMasks(From(s.received, p), md)| <= |FieldMasks(From(s.received, q), md)|
  {
    PartsAreClients(layout, scripts, md.domain, q);
    hide GoodClients, Invariant, Filter, From, FieldMasks, Follows, Attained, Parts, SyncsIn, L.CanReceive, D.Sane,
         L.MoreConnections, PacedAt;
    NextReceived(layout, scripts, s, p);
    ReceivedFrom(layout, scripts, s, q);
    var i, j := |From(s.received, p)|, |From(s.received, q)|;
    QueuedAttained(layout, scripts, s, SyncsIn(scripts[p][..i]));
    PacedBetween(layout, scripts, md, p, q, i, j);
  }

  lemma MaskInStep(ms: seq<Message>, m: Message, md: Metadata, peers: set<Peer>)
    requires Lockstep(Sources(FieldMasks(ms, md)), peers)
    requires IsMaskOf(md)(m) ==> m.source in peers && forall q :: q in peers ==>
               |FieldMasks(From(ms, m.source), md)| <= |FieldMasks(From(ms, q), md)|
    ensures Lockstep(Sources(FieldMasks(ms + [m], md)), peers)
  {
    FieldMasksSnoc(ms, m, md);
    if IsMaskOf(md)(m) {
      hide Lockstep, From, Filter, Count;
      var masks := FieldMasks(ms, md);
      forall q | q in peers ensures Count(Sources(masks), m.source) <= Count(Sources(masks), q) {
        CountOf(ms, IsMaskOf(md), m.source);
        CountOf(ms, IsMaskOf(md), q);
      }
      SourcesSnoc(masks, m);
      LockstepSnoc(Sources(masks), m.source, peers);
    } else {
      assert FieldMasks(ms + [m], md) == FieldMasks(ms, md);
    }
  }

  lemma NextInStep(layout: Layout, scripts: Scripts, s: State, md: Metadata, p: Peer)
    requires GoodClients(layout, scripts) && Invariant(layout, scripts, s) && CanReceive(scripts, s, p)
    requires Paced(layout, scripts, md)
    requires InStep(layout, s, md)
    ensures InStep(layout, Receive(scripts, s, p), md)
  {
    hide WellOrdered, Lockstep, D.Sane, D.Serve, D.CanServe, Passed, SoundLayout, L.Run, From, Channelled, Paced, FieldMasks;
    var m, peers := s.channels[p][0], Parts(layout, md.domain).Keys;
    NextReceived(layout, scripts, s, p);
    forall q | q in peers && IsMaskOf(md)(m)
      ensures |FieldMasks(From(s.received, p), md)| <= |FieldMasks(From(s.received, q), md)|
    {
      if q != p {
        MasksOfOthers(layout, scripts, s, md, p, q);
      }
    }
    MaskInStep(s.received, m, md, peers);
  }

  lemma InStepInitially(layout: Layout, scripts: Scripts, md: Metadata)
    ensures InStep(layout, Initial(scripts), md)
  {
    assert FieldMasks([], md) == [];
  }

  lemma {:induction false} RunInStep(layout: Layout, scripts: Scripts, run: seq<State>, md: Metadata)
    requires GoodClients(layout, scripts) && run != [] && IsRun(scripts, run)
    requires Paced(layout, scripts, md)
    ensures InStep(layout, run[|run| - 1], md)
    decreases |run|
  {
    hide Invariant, Typed, Next, GoodClients, Initial, InStep, Paced;
    if |run| == 1 {
      InStepInitially(layout, scripts, md);
    } else {
      hide IsRun;
      var init := LastStep(scripts, run);
      RunInStep(layout, scripts, init, md);
      RunKeeps(layout, scripts, init);
      StepInStep(layout, scripts, init[|init| - 1], run[|run| - 1], md);
    }
  }

  lemma StepInStep(layout: Layout, scripts: Scripts, s: State, s': State, md: Metadata)
    requires GoodClients(layout, scripts) && Invariant(layout, scripts, s) && Next(scripts, s, s')
    requires Paced(layout, scripts, md)
    requires InStep(layout, s, md)
    ensures InStep(layout, s', md)
  {
    hide CanSend, CanReceive, CanDispatch, GoodClients, Receive, Paced, WellOrdered, Lockstep, D.Sane, D.Serve,
         D.CanServe, Passed, SoundLayout, L.Run, From, Channelled, FieldMasks, Sources, Parts;
    if p :| CanReceive(scripts, s, p) && s' == Receive(scripts, s, p) {
      NextInStep(layout, scripts, s, md, p);
    }
  }

  // ---- main results, for every reachable state

  lemma ReachableInStep(layout: Layout, scripts: Scripts, s: State, md: Metadata)
    requires GoodClients(layout, scripts) && Reachable(scripts, s) && Paced(layout, scripts, md)
    ensures InStep(layout, s, md)
  {
    hide InStep, GoodClients, Paced, IsRun;
    var run :| run != [] && IsRun(scripts, run) && run[|run| - 1] == s;
    RunInStep(layout, scripts, run, md);
  }

  lemma PrefixLockstep(a: seq<Message>, b: seq<Message>, peers: set<Peer>)
    requires a <= b && Lockstep(Sources(b), peers)
    ensures Lockstep(Sources(a), peers)
  {
    assert b == a + b[|a|..];
    L.SourcesConcat(a, b[|a|..]);
    L.LockstepPrefix(Sources(a), Sources(b[|a|..]), peers);
  }

  lemma HandledOrdered(layout: Layout, scripts: Scripts, s: State)
    requires GoodClients(layout, scripts) && Invariant(layout, scripts, s)
    ensures SoundLayout(layout) && WellOrdered(layout, Handled(s))
    ensures D.CanServe(Handled(s)) && s.server == D.Serve(Handled(s)) && Holds(layout, Handled(s), s.server)
    ensures forall md :: FieldMasks(Handled(s), md) <= FieldMasks(s.received, md)
  {
    hide Lockstep, Passed, Channelled, L.Run, Filter, Holds;
    QueueOrdered(layout, |scripts|, s.received);
    WellOrderedPrefix(layout, s.listener.queue, s.handled);
    HoldsAlways(layout, Handled(s));
    forall md ensures FieldMasks(Handled(s), md) <= FieldMasks(s.received, md) {
      FilterGrows(s.listener.queue, s.handled, IsMaskOf(md));
    }
  }

  /** In every reachable state, a paced field has been built once for every complete round of the
      masks handled so far, in the order of the rounds, each time from one mask of each peer of its
      domain; the masks of the current round are stored. */
  lemma BuiltOncePerRound(layout: Layout, scripts: Scripts, s: State, md: Metadata)
    requires GoodClients(layout, scripts) && Reachable(scripts, s) && Paced(layout, scripts, md)
    requires md.domain in layout.domains
    ensures Typed(scripts, s)
    ensures var peers, c := layout.domains[md.domain].Keys, ChunksOf(s.server, md);
            c == Accumulate(FieldMasks(Handled(s), md), |peers|) && AreRounds(c, peers)
  {
    ReachableKeeps(layout, scripts, s);
    assert Typed(scripts, s);
    HandledOrdered(layout, scripts, s);
    ReachableInStep(layout, scripts, s, md);
    hide Invariant, Holds, Lockstep, Paced, Filter, FieldMasks, ChunksOf, WellOrdered;
    var peers := layout.domains[md.domain].Keys;
    PrefixLockstep(FieldMasks(Handled(s), md), FieldMasks(s.received, md), peers);
    BuiltInRounds(layout, Handled(s), md);
  }

  /** In every reachable state, what was built is the scatter of its parts over cells that are
      otherwise false. */
  lemma BuiltCells(layout: Layout, scripts: Scripts, s: State, b: D.Build, c: nat)
    requires GoodClients(layout, scripts) && Reachable(scripts, s) && b in s.server.built && c < b.md.globalSize
    ensures SoundLayout(layout) && BuildIs(layout, b) && c < |b.cells|
    ensures (forall k :: 0 <= k < |b.parts| ==> !Covers(Full(layout, b.md.domain), b.parts[k], c)) ==> !b.cells[c]
    ensures Agree(Full(layout, b.md.domain), b.md, b.parts) ==>
              forall k :: 0 <= k < |b.parts| && Covers(Full(layout, b.md.domain), b.parts[k], c) ==>
                b.cells[c] == ValueAt(Full(layout, b.md.domain), b.parts[k], c)
  {
    ReachableKeeps(layout, scripts, s);
    HandledOrdered(layout, scripts, s);
    assert BuildIs(layout, b);
    hide GoodClients, Invariant, Holds, A.Assembled, A.AllFit, Covers, ValueAt, Agree;
    var dm := Full(layout, b.md.domain);
    AssembledCell(dm, b.md, b.parts, c);
    if Agree(dm, b.md, b.parts) {
      forall k: nat | k < |b.parts| && Covers(dm, b.parts[k], c) ensures b.cells[c] == ValueAt(dm, b.parts[k], c) {
        OwnersValue(dm, b.md, b.parts, k, c);
      }
    }
  }

  /** The payload decodes to these cells, value by value and run by run. */
  ghost predicate StandsFor(payload: seq<byte>, cells: seq<bool>) {
    && cells != [] && DecodesToBits(payload, cells)
    && DecodesToRuns(payload, PairsFrom(cells[0], MaskRuns.Runs(cells), 0))
  }

  lemma LatestDecodes(layout: Layout, scripts: Scripts, s: State, key: A.Key)
    requires GoodClients(layout, scripts) && Reachable(scripts, s)
    ensures key in s.server.masks.bitmasks <==> Latest(s.server.built, key) != []
    ensures key in s.server.masks.bitmasks ==> StandsFor(s.server.masks.bitmasks[key], Latest(s.server.built, key)[0].cells)
  {
    ReachableKeeps(layout, scripts, s);
    HandledOrdered(layout, scripts, s);
    if key in s.server.masks.bitmasks {
      var b := Latest(s.server.built, key)[0];
      assert BuildIs(layout, b);
      hide GoodClients, Invariant, A.Assembled, A.AllFit, DecodesToBits, DecodesToRuns;
      ShortMaskRoundTrip(b.cells);
    }
  }

  /** In every reachable state there is a bitmask for a domain and level exactly if some mask on that
      domain and level has been built, and it decodes, by runs and by values, to the last one built. */
  lemma BitmaskDecodes(layout: Layout, scripts: Scripts, s: State, dom: string, lev: int)
    requires GoodClients(layout, scripts) && Reachable(scripts, s)
    ensures (dom, lev) in s.server.masks.bitmasks <==>
            exists k :: 0 <= k < |s.server.built| && s.server.built[k].md.domain == dom && s.server.built[k].md.level == lev
    ensures (dom, lev) in s.server.masks.bitmasks ==>
              exists k :: 0 <= k < |s.server.built| && LastFor(s.server.built, k, dom, lev)
    ensures forall k :: 0 <= k < |s.server.built| && LastFor(s.server.built, k, dom, lev) ==>
              && (dom, lev) in s.server.masks.bitmasks
              && StandsFor(s.server.masks.bitmasks[(dom, lev)], s.server.built[k].cells)
  {
    hide GoodClients, Reachable, Latest, StandsFor;
    LatestDecodes(layout, scripts, s, (dom, lev));
    LatestIsLast(s.server.built, dom, lev);
  }

  /** In any two runs with the same scripts, a field's builds of the same round have the same cells,
      if the parts of the round agree where they overlap. */
  lemma SameInEveryRun(layout: Layout, scripts: Scripts, s: State, t: State, md: Metadata, k: nat)
    requires GoodClients(layout, scripts) && Reachable(scripts, s) && Reachable(scripts, t)
    requires Paced(layout, scripts, md) && md.domain in layout.domains
    requires k < |BuildsOf(s.server.built, md)| && k < |BuildsOf(t.server.built, md)|
    requires Agree(Full(layout, md.domain), md, BuildsOf(s.server.built, md)[k].parts)
    ensures BuildsOf(s.server.built, md)[k].cells == BuildsOf(t.server.built, md)[k].cells
  {
    var a, b := BuildsOf(s.server.built, md)[k], BuildsOf(t.server.built, md)[k];
    BuildsHaveParts(s.server.built, md);
    BuildsHaveParts(t.server.built, md);
    BuildHere(layout, scripts, s, a);
    BuildHere(layout, scripts, t, b);
    hide Agree, A.Assembled, A.AllFit, PartsOf, BuildsOf, GoodClients, Reachable, Paced;
    SameParts(layout, scripts, s, t, md, k);
    SameMembersAgree(Full(layout, md.domain), md, a.parts, b.parts);
    OrderIrrelevant(Full(layout, md.domain), md, a.parts, b.parts);
  }

  lemma BuildHere(layout: Layout, scripts: Scripts, s: State, b: D.Build)
    requires GoodClients(layout, scripts) && Reachable(scripts, s) && b in s.server.built
    ensures SoundLayout(layout) && BuildIs(layout, b)
  {
    ReachableKeeps(layout, scripts, s);
    HandledOrdered(layout, scripts, s);
  }

  /** A build of a paced field has one part of each peer. */
  lemma PartsDiffer(layout: Layout, scripts: Scripts, s: State, md: Metadata, k: nat)
    requires GoodClients(layout, scripts) && Reachable(scripts, s)
    requires Paced(layout, scripts, md) && md.domain in layout.domains && k < |PartsOf(s.server.built, md)|
    ensures forall i, j :: 0 <= i < j < |PartsOf(s.server.built, md)[k]| ==>
              PartsOf(s.server.built, md)[k][i].source != PartsOf(s.server.built, md)[k][j].source
  {
    hide GoodClients, Reachable, Paced, Typed, Accumulate, OneOfEach, PartsOf;
    BuiltOncePerRound(layout, scripts, s, md);
    var peers, c := layout.domains[md.domain].Keys, ChunksOf(s.server, md);
    var parts := c.complete[k];
    assert OneOfEach(Sources(parts), peers);
    forall i, j | 0 <= i < j < |parts| ensures parts[i].source != parts[j].source {
      OneOfEachDiffer(parts, peers, i, j);
    }
  }

  /** If the domains are pairwise disjoint, the parts always agree: all runs build the same cells. */
  lemma SameWithDisjointDomains(layout: Layout, scripts: Scripts, s: State, t: State, md: Metadata, k: nat)
    requires GoodClients(layout, scripts) && Reachable(scripts, s) && Reachable(scripts, t)
    requires Paced(layout, scripts, md) && md.domain in layout.domains
    requires Disjoint(Full(layout, md.domain))
    requires k < |BuildsOf(s.server.built, md)| && k < |BuildsOf(t.server.built, md)|
    ensures BuildsOf(s.server.built, md)[k].cells == BuildsOf(t.server.built, md)[k].cells
  {
    assert M.WellFormedMap(Full(layout, md.domain));
    hide GoodClients, Reachable, Paced, A.AllFit, A.Assembled, Agree, Disjoint, BuildsOf, PartsOf, Full;
    BuildsHaveParts(s.server.built, md);
    var b := BuildsOf(s.server.built, md)[k];
    BuildHere(layout, scripts, s, b);
    PartsDiffer(layout, scripts, s, md, k);
    DisjointAgree(Full(layout, md.domain), md, b.parts);
    SameInEveryRun(layout, scripts, s, t, md, k);
  }

  lemma HandledFrom(layout: Layout, scripts: Scripts, s: State, md: Metadata, p: Peer)
    requires GoodClients(layout, scripts) && Invariant(layout, scripts, s) && p in scripts
    ensures From(FieldMasks(Handled(s), md), p) <= FieldMasks(scripts[p], md)
  {
    HandledOrdered(layout, scripts, s);
    ReceivedFrom(layout, scripts, s, p);
    hide GoodClients, Invariant, Holds, WellOrdered;
    FromFilter(s.received, IsMaskOf(md), p);
    FilterGrows(scripts[p], |From(s.received, p)|, IsMaskOf(md));
    FromGrows(FieldMasks(Handled(s), md), FieldMasks(s.received, md), p);
  }

  lemma {:induction false} FromGrows(a: seq<Message>, b: seq<Message>, p: Peer)
    requires a <= b
    ensures From(a, p) <= From(b, p)
    decreases |b|
  {
    if |a| < |b| {
      FromGrows(a, b[..|b| - 1], p);
    } else {
      assert a == b;
    }
  }

  /** Round number `k` of a field has the same parts in every run. */
  lemma SameParts(layout: Layout, scripts: Scripts, s: State, t: State, md: Metadata, k: nat)
    requires GoodClients(layout, scripts) && Reachable(scripts, s) && Reachable(scripts, t)
    requires Paced(layout, scripts, md) && md.domain in layout.domains
    requires k < |PartsOf(s.server.built, md)| && k < |PartsOf(t.server.built, md)|
    ensures SameMembers(PartsOf(s.server.built, md)[k], PartsOf(t.server.built, md)[k])
  {
    BuiltOncePerRound(layout, scripts, s, md);
    BuiltOncePerRound(layout, scripts, t, md);
    ReachableKeeps(layout, scripts, s);
    ReachableKeeps(layout, scripts, t);
    var peers := layout.domains[md.domain].Keys;
    assert peers != {} && peers <= scripts.Keys;
    hide Invariant, Paced, AreRounds, Accumulate, FieldMasks, WellOrdered, From, Reachable;
    var masks := map p | p in scripts :: FieldMasks(scripts[p], md);
    forall p | p in peers
      ensures From(FieldMasks(Handled(s), md), p) <= masks[p] && From(FieldMasks(Handled(t), md), p) <= masks[p]
    {
      HandledFrom(layout, scripts, s, md, p);
      HandledFrom(layout, scripts, t, md, p);
    }
    SameRounds(FieldMasks(Handled(s), md), FieldMasks(Handled(t), md), peers, masks, k);
  }

  /** A field that every client sends at most once needs no synchronization. */
  lemma OnceIsPaced(layout: Layout, scripts: Scripts, md: Metadata)
    requires forall p :: p in scripts ==> |FieldMasks(scripts[p], md)| <= 1
    ensures Paced(layout, scripts, md)
  {
    forall p, q, i: nat, j: nat | p in scripts && q in scripts
      ensures PacedAt(scripts, scripts[p], scripts[q], md, i, j)
    {
      var mine := scripts[p];
      if i < |mine| && IsMaskOf(md)(mine[i]) {
        FieldMasksSnoc(mine[..i], mine[i], md);
        assert mine[..i + 1] == mine[..i] + [mine[i]];
        FilterGrows(mine, i + 1, IsMaskOf(md));
      }
    }
  }

  // ---- progress

  ghost predicate EqualSyncs(scripts: Scripts) {
    forall p, q :: p in scripts && q in scripts ==> SyncsIn(scripts[p]) == SyncsIn(scripts[q])
  }

  /** Everything has been sent, received and handled. */
  ghost predicate Finished(scripts: Scripts, s: State)
    requires Typed(scripts, s)
  {
    && (forall p :: p in scripts ==> s.sent[p] == |scripts[p]| && s.channels[p] == [])
    && s.handled == |s.listener.queue|
  }

  ghost predicate CanStep(scripts: Scripts, s: State)
    requires Typed(scripts, s)
  {
    || (exists p :: CanSend(scripts, s, p))
    || (exists p :: CanReceive(scripts, s, p))
    || CanDispatch(scripts, s)
  }

  lemma SentSyncs(scripts: Scripts, s: State, p: Peer)
    requires Typed(scripts, s) && Channelled(scripts, s) && p in scripts && s.channels[p] == []
    ensures SyncsIn(From(s.received, p)) == SyncsIn(scripts[p][..s.sent[p]]) <= SyncsIn(scripts[p])
  {
    assert From(s.received, p) + s.channels[p] == From(s.received, p);
    FilterGrows(scripts[p], s.sent[p], IsSync);
  }

  /** When everything is finished, all clients have synchronized equally often, the listener has
      stopped, and its queue holds every data message once. */
  lemma FinishedState(layout: Layout, scripts: Scripts, s: State)
    requires GoodClients(layout, scripts) && Reachable(scripts, s)
    requires Typed(scripts, s) && Finished(scripts, s)
    ensures EqualSyncs(scripts)
    ensures !L.MoreConnections(|scripts|, s.listener)
    ensures Filter(s.listener.queue, IsData) == Filter(s.received, IsData)
    ensures L.AllSent(scripts, s.received)
  {
    ReachableKeeps(layout, scripts, s);
    AllReceived(layout, scripts, s);
    InterleavedNow(layout, scripts, s);
    L.MoreUntilAllSent(scripts, s.received);
    L.SizePositive(scripts.Keys);
    L.QueueHolds(|scripts|, s.received);
    forall p, q | p in scripts && q in scripts ensures SyncsIn(scripts[p]) <= SyncsIn(scripts[q]) {
      LastPassed(layout, scripts, s, p);
      ReceivedFrom(layout, scripts, s, q);
    }
  }

  lemma AllReceived(layout: Layout, scripts: Scripts, s: State)
    requires GoodClients(layout, scripts) && Invariant(layout, scripts, s) && Finished(scripts, s)
    ensures L.AllSent(scripts, s.received)
  {
    hide WellOrdered, Lockstep, D.Sane, D.Serve, D.CanServe, Filter, Passed, SoundLayout, L.Run, From;
    forall p | p in scripts ensures From(s.received, p) == scripts[p] {
      assert From(s.received, p) + s.channels[p] == From(s.received, p);
      assert scripts[p][..s.sent[p]] == scripts[p];
    }
  }

  /** A client that has closed has passed all its barriers. */
  lemma LastPassed(layout: Layout, scripts: Scripts, s: State, p: Peer)
    requires GoodClients(layout, scripts) && Invariant(layout, scripts, s) && Finished(scripts, s) && p in scripts
    ensures SyncsIn(scripts[p]) <= Queued(s)
  {
    hide WellOrdered, Lockstep, D.Sane, D.Serve, D.CanServe, SoundLayout, L.Run, From, Channelled;
    var script := scripts[p];
    assert L.WellBehaved(p, script);
    var last := |script| - 1;
    assert script == script[..last] + [script[last]];
    FilterSnoc(script[..last], script[last], IsSync);
    assert script[last].body.Close?;
  }

  /** Once everything is finished, a paced field of which every peer sent `rounds` masks has been
      built exactly `rounds` times and no part of it is left. */
  lemma FinishedField(layout: Layout, scripts: Scripts, s: State, md: Metadata, rounds: nat)
    requires GoodClients(layout, scripts) && Reachable(scripts, s) && Paced(layout, scripts, md)
    requires Typed(scripts, s) && Finished(scripts, s) && md.domain in layout.domains
    requires forall p :: p in layout.domains[md.domain] ==> p in scripts && |FieldMasks(scripts[p], md)| == rounds
    ensures |BuildsOf(s.server.built, md)| == rounds && A.Pending(s.server.masks, md) == []
  {
    hide WellOrdered, Filter, From, Sources, Count, AreRounds, Paced, Reachable, L.Run, D.Serve, D.CanServe, D.Sane,
         Channelled, Passed, Lockstep, SoundLayout, L.Clients;
    ReachableKeeps(layout, scripts, s);
    AllReceived(layout, scripts, s);
    QueueOrdered(layout, |scripts|, s.received);
    assert Handled(s) == s.listener.queue;
    BuiltOncePerRound(layout, scripts, s, md);
    BuildsHaveParts(s.server.built, md);
    FieldPeers(layout, scripts, md.domain);
    var peers, ms := layout.domains[md.domain].Keys, FieldMasks(s.received, md);
    forall p | p in peers ensures Count(Sources(ms), p) == rounds {
      CountOf(s.received, IsMaskOf(md), p);
    }
    FullRounds(ms, peers, rounds);
  }

  lemma FieldPeers(layout: Layout, scripts: Scripts, name: string)
    requires GoodClients(layout, scripts) && name in layout.domains
    ensures layout.domains[name].Keys != {} && layout.domains[name].Keys <= scripts.Keys
  {
    hide WellOrdered, SoundLayout, L.Clients;
  }

  lemma FullRounds(ms: seq<Message>, peers: set<Peer>, rounds: nat)
    requires peers != {} && AreRounds(Accumulate(ms, |peers|), peers)
    requires forall p :: p in peers ==> Count(Sources(ms), p) == rounds
    ensures |Accumulate(ms, |peers|).complete| == rounds && Accumulate(ms, |peers|).pending == []
  {
    RoundsCount(ms, peers);
    var c := Accumulate(ms, |peers|);
    var q := SomeoneMissing(peers, Members(Sources(c.pending)));
    assert q !in Sources(c.pending);
    forall p ensures p !in Members(Sources(c.pending)) {
      assert p in peers || p !in Members(Sources(c.pending));
    }
    NoMembers(Members(Sources(c.pending)));
  }
}
