/** The server's receive loop: it counts connections and synchronizations and queues messages for
    the dispatcher. */
module Listener {
  import opened Wrappers
  import opened Messages
  import opened Rounds
  import opened Sets

  datatype State = State(connections: set<Peer>, openedCount: nat, syncCount: nat, queue: seq<Message>)

  const START := State({}, 0, 0, [])

  /** The message is handled without an exception. */
  predicate CanReceive(s: State, m: Message) {
    match m.body
    case Open => true
    case Close => m.source in s.connections
    case Empty => false
    case _ => m.source in s.connections
  }

  function Step(clientCount: nat, s: State, m: Message): State {
    match m.body
    case Open => s.(connections := s.connections + {m.source}, openedCount := s.openedCount + 1)
    case Close => s.(connections := s.connections - {m.source})
    case Synchronization =>
      if s.syncCount + 1 == clientCount then s.(syncCount := 0, queue := s.queue + [m])
      else s.(syncCount := s.syncCount + 1)
    case Empty => s
    case _ => s.(queue := s.queue + [m])
  }

  predicate MoreConnections(clientCount: nat, s: State) {
    s.connections != {} || s.openedCount != clientCount
  }

  function Run(clientCount: nat, ms: seq<Message>): State {
    if ms == [] then START else Step(clientCount, Run(clientCount, ms[..|ms| - 1]), ms[|ms| - 1])
  }

  ghost predicate Accepted(clientCount: nat, ms: seq<Message>) {
    forall i :: 0 <= i < |ms| ==> CanReceive(Run(clientCount, ms[..i]), ms[i])
  }

  /** The loop has not stopped before the last message. */
  ghost predicate StillOpen(clientCount: nat, ms: seq<Message>) {
    forall i :: 0 < i < |ms| ==> MoreConnections(clientCount, Run(clientCount, ms[..i]))
  }

  /** Only open connections are closed; closing another is undefined in the source. */
  ghost predicate ClosesOpen(clientCount: nat, ms: seq<Message>) {
    forall i :: 0 <= i < |ms| && ms[i].body.Close? ==> ms[i].source in Run(clientCount, ms[..i]).connections
  }

  lemma RunSnoc(clientCount: nat, ms: seq<Message>, m: Message)
    ensures Run(clientCount, ms + [m]) == Step(clientCount, Run(clientCount, ms), m)
  {
    assert (ms + [m])[..|ms|] == ms;
  }

  class Listener {
    const clientCount: nat
    var connections: set<Peer>
    var openedCount: nat
    var syncCount: nat
    var msgQueue: seq<Message>

    function Contents(): State
      reads this
    {
      State(connections, openedCount, syncCount, msgQueue)
    }

    constructor (clientCount: nat)
      ensures this.clientCount == clientCount && Contents() == START
    {
      this.clientCount := clientCount;
      connections, openedCount, syncCount, msgQueue := {}, 0, 0, [];
    }

    /** One pass of the loop. Closing a connection that is not open is undefined. */
    method Receive(m: Message) returns (o: Outcome)
      requires m.body.Close? ==> m.source in connections
      modifies this
      ensures o.Done? <==> old(CanReceive(Contents(), m))
      ensures Contents() == if o.Done? then old(Step(clientCount, Contents(), m)) else old(Contents())
    {
      match m.body {
        case Open =>
          connections := connections + {m.source};
          openedCount := openedCount + 1;
          o := Done;
        case Close =>
          connections := connections - {m.source};
          o := Done;
        case Synchronization =>
          if m.source !in connections {
            return Raised("connection is not open");
          }
          syncCount := syncCount + 1;
          if syncCount == clientCount {
            msgQueue := msgQueue + [m];
            syncCount := 0;
          }
          o := Done;
        case Empty =>
          o := Raised("unhandled message");
        case _ =>
          if m.source !in connections {
            return Raised("connection is not open");
          }
          msgQueue := msgQueue + [m];
          o := Done;
      }
    }

    /** Receives messages until the connections are exhausted or a message raises; `incoming` are the
        messages the transport delivers, in order. */
    method Start(incoming: seq<Message>) returns (received: nat, o: Outcome)
      requires Contents() == START && incoming != [] && ClosesOpen(clientCount, incoming)
      modifies this
      ensures received <= |incoming| && Contents() == Run(clientCount, incoming[..received])
      ensures Accepted(clientCount, incoming[..received]) && StillOpen(clientCount, incoming[..received])
      ensures o.Raised? ==> received < |incoming| && !CanReceive(Contents(), incoming[received])
      ensures o.Done? ==> 0 < received && (received == |incoming| || !MoreConnections(clientCount, Contents()))
    {
      received := 0;
      while received < |incoming|
        invariant 0 <= received <= |incoming|
        invariant Contents() == Run(clientCount, incoming[..received])
        invariant Accepted(clientCount, incoming[..received]) && StillOpen(clientCount, incoming[..received])
        invariant received == 0 || MoreConnections(clientCount, Contents())
      {
        assert incoming[received].body.Close? ==> incoming[received].source in Run(clientCount, incoming[..received]).connections;
        o := Receive(incoming[received]);
        if o.Raised? {
          return;
        }
        assert incoming[..received + 1] == incoming[..received] + [incoming[received]];
        RunSnoc(clientCount, incoming[..received], incoming[received]);
        AcceptedSnoc(clientCount, incoming[..received], incoming[received]);
        OpenSnoc(clientCount, incoming[..received], incoming[received]);
        received := received + 1;
        if !(connections != {} || openedCount != clientCount) {
          return received, Done;
        }
      }
      o := Done;
    }
  }

  lemma AcceptedSnoc(clientCount: nat, ms: seq<Message>, m: Message)
    requires Accepted(clientCount, ms) && CanReceive(Run(clientCount, ms), m)
    ensures Accepted(clientCount, ms + [m])
  {
    forall i | 0 <= i < |ms| + 1 ensures CanReceive(Run(clientCount, (ms + [m])[..i]), (ms + [m])[i]) {
      if i < |ms| {
        assert (ms + [m])[..i] == ms[..i];
      } else {
        assert (ms + [m])[..i] == ms;
      }
    }
  }

  lemma OpenSnoc(clientCount: nat, ms: seq<Message>, m: Message)
    requires StillOpen(clientCount, ms) && (ms == [] || MoreConnections(clientCount, Run(clientCount, ms)))
    ensures StillOpen(clientCount, ms + [m])
  {
    forall i | 0 < i < |ms| + 1 ensures MoreConnections(clientCount, Run(clientCount, (ms + [m])[..i])) {
      if i < |ms| {
        assert (ms + [m])[..i] == ms[..i];
      } else {
        assert (ms + [m])[..i] == ms;
      }
    }
  }

  // ---- what the queue holds

  /** The last message of every chunk. */
  function Lasts(chunks: seq<seq<Message>>): (r: seq<Message>)
    ensures |r| <= |chunks|
  {
    if chunks == [] then []
    else
      var init, c := chunks[..|chunks| - 1], chunks[|chunks| - 1];
      Lasts(init) + if c == [] then [] else [c[|c| - 1]]
  }

  lemma LastsSnoc(chunks: seq<seq<Message>>, c: seq<Message>)
    requires c != []
    ensures Lasts(chunks + [c]) == Lasts(chunks) + [c[|c| - 1]]
  {
    var all := chunks + [c];
    assert all[..|all| - 1] == chunks && all[|all| - 1] == c;
    assert Lasts(all) == Lasts(all[..|all| - 1]) + [c[|c| - 1]];
  }

  /** The queue holds every data message once, in receive order, and the last of every `n`
      synchronizations; `syncCount` is the number of synchronizations since. */
  lemma {:induction false} QueueHolds(n: nat, ms: seq<Message>)
    requires n >= 1
    ensures Filter(Run(n, ms).queue, IsData) == Filter(ms, IsData)
    ensures var c := Accumulate(Filter(ms, IsSync), n);
            && Filter(Run(n, ms).queue, IsSync) == Lasts(c.complete)
            && Run(n, ms).syncCount == |c.pending|
    decreases |ms|
  {
    if ms != [] {
      var init, m := ms[..|ms| - 1], ms[|ms| - 1];
      assert ms == init + [m];
      QueueHolds(n, init);
      QueueHoldsStep(n, init, m);
    }
  }

  /** The queue holds nothing else: what is received is an Open, a Close, an Empty, a Synchronization or
      a data message. */
  lemma {:induction false} QueueHoldsOnly(n: nat, ms: seq<Message>)
    ensures forall i :: 0 <= i < |Run(n, ms).queue| ==> IsData(Run(n, ms).queue[i]) || IsSync(Run(n, ms).queue[i])
    decreases |ms|
  {
    if ms != [] {
      QueueHoldsOnly(n, ms[..|ms| - 1]);
    }
  }

  lemma QueueHoldsStep(n: nat, ms: seq<Message>, m: Message)
    requires n >= 1
    requires Filter(Run(n, ms).queue, IsData) == Filter(ms, IsData)
    requires var c := Accumulate(Filter(ms, IsSync), n);
             && Filter(Run(n, ms).queue, IsSync) == Lasts(c.complete)
             && Run(n, ms).syncCount == |c.pending|
    ensures Filter(Run(n, ms + [m]).queue, IsData) == Filter(ms + [m], IsData)
    ensures var c := Accumulate(Filter(ms + [m], IsSync), n);
            && Filter(Run(n, ms + [m]).queue, IsSync) == Lasts(c.complete)
            && Run(n, ms + [m]).syncCount == |c.pending|
  {
    hide Filter, Accumulate, Lasts, Run;
    var s, c := Run(n, ms), Accumulate(Filter(ms, IsSync), n);
    RunSnoc(n, ms, m);
    FilterSnoc(ms, m, IsSync);
    FilterSnoc(ms, m, IsData);
    FilterSnoc(s.queue, m, IsSync);
    FilterSnoc(s.queue, m, IsData);
    AccumulateSnoc(Filter(ms, IsSync), m, n);
    LastsSnoc(c.complete, c.pending + [m]);
    assert (c.pending + [m])[|c.pending|] == m;
    if !IsSync(m) {
      assert Filter(ms + [m], IsSync) == Filter(ms, IsSync);
      assert Filter(Run(n, ms + [m]).queue, IsSync) == Filter(s.queue, IsSync);
    }
  }

  lemma {:induction false} LastsSize(ms: seq<Message>, n: nat)
    requires n >= 1
    ensures |Lasts(Accumulate(ms, n).complete)| == |Accumulate(ms, n).complete|
    decreases |ms|
  {
    if ms != [] {
      var init, m := ms[..|ms| - 1], ms[|ms| - 1];
      assert ms == init + [m];
      LastsSize(init, n);
      AccumulateSnoc(init, m, n);
      LastsSnoc(Accumulate(init, n).complete, Accumulate(init, n).pending + [m]);
    }
  }

  /** The number of queued synchronizations is the number received divided by the client count, and
      `syncCount` is the remainder. */
  lemma SyncsQueued(n: nat, ms: seq<Message>)
    requires n >= 1
    ensures |Filter(Run(n, ms).queue, IsSync)| == |Filter(ms, IsSync)| / n
    ensures Run(n, ms).syncCount == |Filter(ms, IsSync)| % n
  {
    QueueHolds(n, ms);
    LastsSize(Filter(ms, IsSync), n);
    AccumulateSize(Filter(ms, IsSync), n);
  }

  /** The queue only grows, so a message keeps its place in it. */
  lemma {:induction false} QueueGrows(n: nat, ms: seq<Message>, i: nat)
    requires i <= |ms|
    ensures Run(n, ms[..i]).queue <= Run(n, ms).queue
    decreases |ms|
  {
    if i < |ms| {
      var init := ms[..|ms| - 1];
      assert init[..i] == ms[..i];
      QueueGrows(n, init, i);
    } else {
      assert ms[..i] == ms;
    }
  }

  /** A data message received as number `j` enters the queue at the place the queue then ends. */
  lemma DataPlace(n: nat, ms: seq<Message>, j: nat)
    requires j < |ms| && IsData(ms[j])
    ensures |Run(n, ms[..j]).queue| < |Run(n, ms).queue|
    ensures Run(n, ms).queue[|Run(n, ms[..j]).queue|] == ms[j]
    ensures forall i :: j < i <= |ms| ==> |Run(n, ms[..j]).queue| < |Run(n, ms[..i]).queue|
  {
    assert ms[..j + 1] == ms[..j] + [ms[j]];
    RunSnoc(n, ms[..j], ms[j]);
    QueueGrows(n, ms, j + 1);
    forall i | j < i <= |ms| ensures |Run(n, ms[..j]).queue| < |Run(n, ms[..i]).queue| {
      assert ms[..i][..j + 1] == ms[..j + 1];
      QueueGrows(n, ms[..i], j + 1);
    }
  }

  // ---- synchronization as a barrier

  /** How many synchronizations of peer `p` are among the messages. */
  function Syncs(ms: seq<Message>, p: Peer): nat {
    Count(Sources(Filter(ms, IsSync)), p)
  }

  /** The last message is a synchronization that the listener queues, as number `k`. */
  predicate QueuesSync(n: nat, ms: seq<Message>, k: nat) {
    && ms != [] && IsSync(ms[|ms| - 1])
    && |Run(n, ms).queue| == |Run(n, ms[..|ms| - 1]).queue| + 1
    && |Filter(Run(n, ms).queue, IsSync)| == k
  }

  lemma {:induction false} FilterPrefix(a: seq<Message>, b: seq<Message>, p: Message -> bool)
    ensures Filter(a + b, p) == Filter(a, p) + Filter(b, p)
    decreases |b|
  {
    if b == [] {
      assert a + b == a;
    } else {
      var init, m := b[..|b| - 1], b[|b| - 1];
      assert a + b == a + init + [m];
      FilterSnoc(a + init, m, p);
      FilterPrefix(a, init, p);
    }
  }

  lemma {:induction false} SourcesConcat(a: seq<Message>, b: seq<Message>)
    ensures Sources(a + b) == Sources(a) + Sources(b)
    decreases |b|
  {
    hide Sources;
    if b == [] {
      assert a + b == a;
    } else {
      var init, m := b[..|b| - 1], b[|b| - 1];
      assert a + b == a + init + [m] && b == init + [m];
      SourcesSnoc(a + init, m);
      SourcesSnoc(init, m);
      SourcesConcat(a, init);
    }
  }

  /** Later messages only add synchronizations. */
  lemma SyncsConcat(a: seq<Message>, b: seq<Message>, p: Peer)
    ensures Syncs(a + b, p) == Syncs(a, p) + Syncs(b, p)
  {
    FilterPrefix(a, b, IsSync);
    SourcesConcat(Filter(a, IsSync), Filter(b, IsSync));
    CountConcat(Sources(Filter(a, IsSync)), Sources(Filter(b, IsSync)), p);
  }

  lemma LockstepPrefix(a: seq<Peer>, b: seq<Peer>, peers: set<Peer>)
    requires Lockstep(a + b, peers)
    ensures Lockstep(a, peers)
  {
    forall i | 0 <= i < |a| ensures a[i] in peers && Behind(a[..i], a[i], peers) {
      assert (a + b)[i] == a[i] && (a + b)[..i] == a[..i];
    }
  }

  lemma SyncChunkClosed(n: nat, ms: seq<Message>, k: nat)
    requires n >= 1 && QueuesSync(n, ms, k)
    ensures var c := Accumulate(Filter(ms, IsSync), n); |c.complete| == k && c.pending == []
  {
    var init, m := ms[..|ms| - 1], ms[|ms| - 1];
    assert ms == init + [m];
    RunSnoc(n, init, m);
    QueueHolds(n, ms);
    LastsSize(Filter(ms, IsSync), n);
  }

  /** When synchronization number `k` is queued in lockstep, every peer has sent `k` of them. */
  lemma SyncsWhenQueued(peers: set<Peer>, ms: seq<Message>, k: nat, p: Peer)
    requires peers != {} && p in peers && QueuesSync(|peers|, ms, k)
    requires Lockstep(Sources(Filter(ms, IsSync)), peers)
    ensures Syncs(ms, p) == k
  {
    var syncs := Filter(ms, IsSync);
    SyncChunkClosed(|peers|, ms, k);
    RoundsIffLockstep(syncs, peers);
    RoundsCount(syncs, peers);
    assert p !in Sources([]);
  }

  /** Barrier: if no client sends its next synchronization before the current one is queued, then
      everything a client sends before its k-th synchronization is in the queue ahead of the k-th
      queued Synchronization. */
  lemma Barrier(peers: set<Peer>, ms: seq<Message>, i: nat, k: nat, j: nat)
    requires peers != {} && i < |ms| && j < |ms|
    requires Lockstep(Sources(Filter(ms, IsSync)), peers)
    requires QueuesSync(|peers|, ms[..i + 1], k)
    requires IsData(ms[j]) && ms[j].source in peers && Syncs(ms[..j], ms[j].source) < k
    ensures j < i
    ensures var n := |peers|;
            var sync, data := |Run(n, ms[..i]).queue|, |Run(n, ms[..j]).queue|;
            && data < sync < |Run(n, ms).queue|
            && Run(n, ms).queue[data] == ms[j] && Run(n, ms).queue[sync] == ms[i]
  {
    hide Lockstep, Run, Filter, Sources;
    var n, p := |peers|, ms[j].source;
    SyncsLockstep(peers, ms, i + 1);
    SyncsWhenQueued(peers, ms[..i + 1], k, p);
    if j > i {
      assert ms[..j] == ms[..i + 1] + ms[i + 1..j];
      SyncsConcat(ms[..i + 1], ms[i + 1..j], p);
    }
    DataPlace(n, ms, j);
    assert ms[..i + 1][..i] == ms[..i];
    SyncPlace(n, ms, i);
  }

  lemma SyncsLockstep(peers: set<Peer>, ms: seq<Message>, i: nat)
    requires i <= |ms| && Lockstep(Sources(Filter(ms, IsSync)), peers)
    ensures Lockstep(Sources(Filter(ms[..i], IsSync)), peers)
  {
    assert ms == ms[..i] + ms[i..];
    FilterPrefix(ms[..i], ms[i..], IsSync);
    SourcesConcat(Filter(ms[..i], IsSync), Filter(ms[i..], IsSync));
    LockstepPrefix(Sources(Filter(ms[..i], IsSync)), Sources(Filter(ms[i..], IsSync)), peers);
  }

  lemma SyncPlace(n: nat, ms: seq<Message>, i: nat)
    requires i < |ms| && |Run(n, ms[..i + 1]).queue| == |Run(n, ms[..i]).queue| + 1
    ensures |Run(n, ms[..i]).queue| < |Run(n, ms).queue|
    ensures Run(n, ms).queue[|Run(n, ms[..i]).queue|] == ms[i]
  {
    assert ms[..i + 1] == ms[..i] + [ms[i]];
    RunSnoc(n, ms[..i], ms[i]);
    QueueGrows(n, ms, i + 1);
  }

  /** Whoever still sends data after the history has sent `k` synchronizations before. */
  ghost predicate SyncedLater(peers: set<Peer>, ms: seq<Message>, k: nat) {
    forall tail, j :: |ms| <= j < |ms + tail| && IsData((ms + tail)[j]) && (ms + tail)[j].source in peers ==>
      SyncedBefore(ms + tail, j, k)
  }

  predicate SyncedBefore(all: seq<Message>, j: nat, k: nat)
    requires j < |all|
  {
    Syncs(all[..j], all[j].source) >= k
  }

  lemma SyncedByThen(ms: seq<Message>, tail: seq<Message>, j: nat, k: nat)
    requires |ms| <= j < |ms + tail| && Syncs(ms, (ms + tail)[j].source) >= k
    ensures SyncedBefore(ms + tail, j, k)
  {
    hide Syncs;
    assert (ms + tail)[..j] == ms + tail[..j - |ms|];
    SyncsConcat(ms, tail[..j - |ms|], (ms + tail)[j].source);
  }

  /** The barrier is exact: once the k-th Synchronization is queued, every data message that can still
      come is one sent after its peer's k-th synchronization exactly when every peer has sent `k` of
      them. */
  lemma BarrierIff(peers: set<Peer>, ms: seq<Message>, k: nat)
    requires peers != {} && QueuesSync(|peers|, ms, k)
    ensures (forall p :: p in peers ==> Syncs(ms, p) >= k) <==> SyncedLater(peers, ms, k)
  {
    hide Syncs, Run, Filter;
    if forall p :: p in peers ==> Syncs(ms, p) >= k {
      forall tail, j | |ms| <= j < |ms + tail| && IsData((ms + tail)[j]) && (ms + tail)[j].source in peers
        ensures SyncedBefore(ms + tail, j, k)
      {
        SyncedByThen(ms, tail, j, k);
      }
    }
    if SyncedLater(peers, ms, k) {
      forall p | p in peers ensures Syncs(ms, p) >= k {
        var m := Message(p, ms[0].md, Other("Flush", true));
        assert (ms + [m])[|ms|] == m && (ms + [m])[..|ms|] == ms;
        assert SyncedBefore(ms + [m], |ms|, k);
      }
    }
  }

  /** A history where a peer is behind: of two connected peers the first synchronizes twice, and the second not at all. */
  lemma OneRunsAhead(md: Metadata) returns (ms: seq<Message>)
    ensures Accepted(2, ms) && QueuesSync(2, ms, 1) && Syncs(ms, 0) == 2 && Syncs(ms, 1) == 0
  {
    var o, p, s := Message(0, md, Open), Message(1, md, Open), Message(0, md, Synchronization);
    var h := [o] + [p] + [s];
    ms := h + [s];
    hide Run, Syncs, Accepted, Filter, QueuesSync;
    RunsAre(o, p, s);
    TwoSyncs(o, p, s);
    QueuedOne(2, h, s);
  }

  lemma QueuedOne(n: nat, h: seq<Message>, s: Message)
    requires IsSync(s) && Run(n, h).queue == [] && Run(n, h + [s]).queue == [s]
    ensures QueuesSync(n, h + [s], 1)
  {
    hide Run, Filter;
    assert (h + [s])[..|h|] == h;
    FilterSnoc([], s, IsSync);
    NoneFiltered(IsSync);
    assert [] + [s] == [s];
  }

  lemma NoneFiltered(f: Message -> bool)
    ensures Filter([], f) == []
  {
  }

  lemma TwoSyncs(o: Message, p: Message, s: Message)
    requires o.body.Open? && p.body.Open? && s.source == 0 && IsSync(s)
    ensures var h := [o] + [p] + [s]; Syncs(h + [s], 0) == 2 && Syncs(h + [s], 1) == 0
  {
    var h := [o] + [p] + [s];
    FilterSnoc([], o, IsSync);
    FilterSnoc([o], p, IsSync);
    FilterSnoc([o] + [p], s, IsSync);
    FilterSnoc(h, s, IsSync);
    assert [] + [o] == [o] && [] + [s] + [s] == [s] + [s];
    assert Filter(h + [s], IsSync) == [s] + [s];
    hide Filter;
    SourcesSnoc([], s);
    SourcesSnoc([s], s);
    assert [] + [s] == [s] && [] + [0] == [0];
    CountSnoc([], 0, 0);
    CountSnoc([0], 0, 0);
    CountSnoc([], 0, 1);
    CountSnoc([0], 0, 1);
  }

  lemma RunsAre(o: Message, p: Message, s: Message)
    requires o.body.Open? && p.body.Open? && o.source == 0 && p.source == 1 && s.source == 0 && IsSync(s)
    ensures var h := [o] + [p] + [s];
            Accepted(2, h + [s]) && Run(2, h).queue == [] && Run(2, h + [s]).queue == [s]
  {
    var h := [o] + [p] + [s];
    RunSnoc(2, [], o);
    RunSnoc(2, [o], p);
    RunSnoc(2, [o] + [p], s);
    RunSnoc(2, h, s);
    hide Run, Accepted;
    NoneAccepted();
    AcceptedSnoc(2, [], o);
    AcceptedSnoc(2, [o], p);
    AcceptedSnoc(2, [o] + [p], s);
    AcceptedSnoc(2, h, s);
  }

  lemma NoneAccepted()
    ensures Accepted(2, []) && Run(2, []) == START
  {
  }

  // ---- lifetime of the loop

  /** A well-behaved client opens first, closes last, and does neither in between. */
  predicate WellBehaved(p: Peer, script: seq<Message>) {
    && |script| >= 2
    && (forall i :: 0 <= i < |script| ==> script[i].source == p && !script[i].body.Empty?)
    && (forall i :: 0 <= i < |script| ==> (script[i].body.Open? <==> i == 0))
    && (forall i :: 0 <= i < |script| ==> (script[i].body.Close? <==> i == |script| - 1))
  }

  ghost predicate Clients(scripts: map<Peer, seq<Message>>) {
    scripts.Keys != {} && forall p :: p in scripts ==> WellBehaved(p, scripts[p])
  }

  /** The messages are an interleaving of what the clients have sent so far. */
  ghost predicate Interleaved(scripts: map<Peer, seq<Message>>, ms: seq<Message>) {
    && (forall i :: 0 <= i < |ms| ==> ms[i].source in scripts)
    && (forall p :: p in scripts ==> From(ms, p) <= scripts[p])
  }

  lemma InterleavedPrefix(scripts: map<Peer, seq<Message>>, ms: seq<Message>, m: Message)
    requires Interleaved(scripts, ms + [m])
    ensures Interleaved(scripts, ms)
    ensures m.source in scripts && |From(ms, m.source)| < |scripts[m.source]|
    ensures scripts[m.source][|From(ms, m.source)|] == m
  {
    forall i | 0 <= i < |ms| ensures ms[i].source in scripts {
      assert (ms + [m])[i] == ms[i];
    }
    assert (ms + [m])[|ms|] == m;
    forall p | p in scripts ensures From(ms, p) <= scripts[p] { FromSnoc(ms, m, p); }
    FromSnoc(ms, m, m.source);
    assert From(ms + [m], m.source)[|From(ms, m.source)|] == m;
  }

  lemma InterleavedSnoc(scripts: map<Peer, seq<Message>>, ms: seq<Message>, m: Message)
    requires Interleaved(scripts, ms) && m.source in scripts
    requires |From(ms, m.source)| < |scripts[m.source]| && scripts[m.source][|From(ms, m.source)|] == m
    ensures Interleaved(scripts, ms + [m])
  {
    hide From;
    forall p | p in scripts ensures From(ms + [m], p) <= scripts[p] {
      FromSnoc(ms, m, p);
      assert From(ms, p) <= scripts[p];
    }
  }

  ghost function Connected(scripts: map<Peer, seq<Message>>, ms: seq<Message>): set<Peer> {
    set p | p in scripts && 0 < |From(ms, p)| < |scripts[p]|
  }

  ghost function Opened(scripts: map<Peer, seq<Message>>, ms: seq<Message>): set<Peer> {
    set p | p in scripts && 0 < |From(ms, p)|
  }

  /** The connections are those opened and not yet closed, and no message raises an exception. */
  lemma {:induction false} ConnectionsAre(scripts: map<Peer, seq<Message>>, n: nat, ms: seq<Message>)
    requires Clients(scripts) && Interleaved(scripts, ms)
    ensures Run(n, ms).connections == Connected(scripts, ms)
    ensures Run(n, ms).openedCount == |Opened(scripts, ms)|
    ensures Accepted(n, ms)
    decreases |ms|
  {
    if ms == [] {
      assert Connected(scripts, ms) == {} && Opened(scripts, ms) == {};
    } else {
      var init, m := ms[..|ms| - 1], ms[|ms| - 1];
      assert ms == init + [m];
      InterleavedPrefix(scripts, init, m);
      ConnectionsAre(scripts, n, init);
      RunSnoc(n, init, m);
      OpenedSnoc(scripts, init, m);
      ConnectedSnoc(scripts, init, m);
      ConnectionsStep(scripts, n, init, m);
      hide From, Connected, Opened, CanReceive, Step;
      forall i | 0 <= i < |ms| ensures CanReceive(Run(n, ms[..i]), ms[i]) {
        if i < |init| {
          assert ms[..i] == init[..i] && ms[i] == init[i];
        }
      }
    }
  }

  lemma OpenedSnoc(scripts: map<Peer, seq<Message>>, ms: seq<Message>, m: Message)
    requires m.source in scripts
    ensures Opened(scripts, ms + [m]) == Opened(scripts, ms) + {m.source}
    ensures |Opened(scripts, ms + [m])| == |Opened(scripts, ms)| + if From(ms, m.source) == [] then 1 else 0
  {
    hide From;
    forall p ensures From(ms + [m], p) == From(ms, p) + if m.source == p then [m] else [] { FromSnoc(ms, m, p); }
    assert Opened(scripts, ms + [m]) == Opened(scripts, ms) + {m.source};
    if From(ms, m.source) != [] {
      assert Opened(scripts, ms) + {m.source} == Opened(scripts, ms);
    }
  }

  lemma ConnectedSnoc(scripts: map<Peer, seq<Message>>, ms: seq<Message>, m: Message)
    requires m.source in scripts && |From(ms, m.source)| < |scripts[m.source]|
    ensures Connected(scripts, ms + [m]) ==
            if |From(ms, m.source)| + 1 < |scripts[m.source]| then Connected(scripts, ms) + {m.source}
            else Connected(scripts, ms) - {m.source}
  {
    hide From;
    forall p ensures From(ms + [m], p) == From(ms, p) + if m.source == p then [m] else [] { FromSnoc(ms, m, p); }
  }

  lemma ConnectionsStep(scripts: map<Peer, seq<Message>>, n: nat, ms: seq<Message>, m: Message)
    requires Clients(scripts) && m.source in scripts && |From(ms, m.source)| < |scripts[m.source]|
    requires scripts[m.source][|From(ms, m.source)|] == m
    requires Run(n, ms).connections == Connected(scripts, ms)
    ensures CanReceive(Run(n, ms), m)
    ensures var s := Step(n, Run(n, ms), m);
            && s.openedCount == Run(n, ms).openedCount + (if From(ms, m.source) == [] then 1 else 0)
            && s.connections == if |From(ms, m.source)| + 1 < |scripts[m.source]| then Connected(scripts, ms) + {m.source}
                                else Connected(scripts, ms) - {m.source}
  {
    assert WellBehaved(m.source, scripts[m.source]);
    if From(ms, m.source) != [] {
      assert m.source in Connected(scripts, ms);
      assert Connected(scripts, ms) + {m.source} == Connected(scripts, ms);
    }
  }

  /** Every client has sent its whole script. */
  ghost predicate AllSent(scripts: map<Peer, seq<Message>>, ms: seq<Message>) {
    forall p :: p in scripts ==> From(ms, p) == scripts[p]
  }

  /** In every interleaving of well-behaved clients, the loop has more to do exactly while some
      client has not sent everything. */
  lemma MoreUntilAllSent(scripts: map<Peer, seq<Message>>, ms: seq<Message>)
    requires Clients(scripts) && Interleaved(scripts, ms)
    ensures Accepted(|scripts|, ms)
    ensures MoreConnections(|scripts|, Run(|scripts|, ms)) <==> !AllSent(scripts, ms)
  {
    ConnectionsAre(scripts, |scripts|, ms);
    assert Opened(scripts, ms) <= scripts.Keys;
    if AllSent(scripts, ms) {
      forall p | p in scripts ensures 0 < |From(ms, p)| { assert WellBehaved(p, scripts[p]); }
      assert Opened(scripts, ms) == scripts.Keys;
      assert Connected(scripts, ms) == {};
    } else {
      var p :| p in scripts && From(ms, p) != scripts[p];
      assert |From(ms, p)| < |scripts[p]|;
      if From(ms, p) == [] {
        assert Opened(scripts, ms) <= scripts.Keys - {p};
        SubsetSize(Opened(scripts, ms), scripts.Keys - {p});
        RemoveOne(scripts.Keys, p);
      } else {
        assert p in Connected(scripts, ms);
      }
    }
  }

  /** The receive loop stops at the very message after which all clients have opened and closed, and
      by then the queue has received every data message once, in receive order. */
  lemma StopsExactly(scripts: map<Peer, seq<Message>>, ms: seq<Message>, i: nat)
    requires Clients(scripts) && Interleaved(scripts, ms) && AllSent(scripts, ms) && i <= |ms|
    ensures Interleaved(scripts, ms[..i])
    ensures MoreConnections(|scripts|, Run(|scripts|, ms[..i])) <==> i < |ms|
    ensures Filter(Run(|scripts|, ms).queue, IsData) == Filter(ms, IsData)
  {
    hide Run, Filter, From, MoreConnections, WellBehaved, Accepted;
    InterleavedUpTo(scripts, ms, i);
    MoreUntilAllSent(scripts, ms[..i]);
    if i < |ms| {
      assert ms[..i + 1] == ms[..i] + [ms[i]];
      InterleavedUpTo(scripts, ms, i + 1);
      InterleavedPrefix(scripts, ms[..i], ms[i]);
    } else {
      assert ms[..i] == ms;
    }
    SizePositive(scripts.Keys);
    QueueHolds(|scripts|, ms);
  }

  lemma SizePositive(s: set<Peer>)
    requires s != {}
    ensures |s| >= 1
  {
  }

  lemma {:induction false} InterleavedUpTo(scripts: map<Peer, seq<Message>>, ms: seq<Message>, i: nat)
    requires Interleaved(scripts, ms) && i <= |ms|
    ensures Interleaved(scripts, ms[..i])
    decreases |ms|
  {
    if i < |ms| {
      var init := ms[..|ms| - 1];
      assert ms == init + [ms[|ms| - 1]] && init[..i] == ms[..i];
      InterleavedPrefix(scripts, init, ms[|ms| - 1]);
      InterleavedUpTo(scripts, init, i);
    } else {
      assert ms[..i] == ms;
    }
  }
}
