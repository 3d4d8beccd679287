/** How clients have to synchronize for a field to be built in rounds: the condition on their scripts
    is exact. */
module Pacing {
  import opened Messages
  import opened Rounds
  import opened FieldAssembly
  import opened Network
  import opened Progress
  import D = Dispatcher
  import L = Listener
  import M = Mappings

  // ---- what lockstep excludes

  /** In lockstep no peer is two contributions ahead of another. */
  lemma {:induction false} LockstepGap(srcs: seq<Peer>, peers: set<Peer>, p: Peer, q: Peer)
    requires Lockstep(srcs, peers) && p in peers && q in peers
    ensures Count(srcs, p) <= Count(srcs, q) + 1
    decreases |srcs|
  {
    if srcs != [] {
      var init, x := srcs[..|srcs| - 1], srcs[|srcs| - 1];
      assert srcs == init + [x];
      LockstepSnoc(init, x, peers);
      LockstepGap(init, peers, p, q);
    }
  }

  // ---- a goal that lets one client run ahead

  /** The shortest prefix with `k` synchronizations. */
  function LeastPrefix(script: seq<Message>, k: nat): (j: nat)
    requires k <= SyncsIn(script)
    ensures j <= |script| && SyncsIn(script[..j]) == k
    ensures forall x: nat :: x < j ==> SyncsIn(script[..x]) < k
  {
    if k == 0 then 0
    else
      var init, m := script[..|script| - 1], script[|script| - 1];
      assert script == init + [m];
      FilterSnoc(init, m, IsSync);
      PrefixOfInit(script);
      if k <= SyncsIn(init) then LeastPrefix(init, k)
      else
        assert script[..|script|] == script;
        AllBelow(script, k);
        |script|
  }

  lemma PrefixOfInit(script: seq<Message>)
    requires script != []
    ensures forall x: nat :: x < |script| ==> script[..|script| - 1][..x] == script[..x]
  {
  }

  lemma AllBelow(script: seq<Message>, k: nat)
    requires script != [] && SyncsIn(script[..|script| - 1]) < k
    ensures forall x: nat :: x < |script| ==> SyncsIn(script[..x]) < k
  {
    forall x: nat | x < |script| ensures SyncsIn(script[..x]) < k {
      PrefixOfInit(script);
      FilterGrows(script[..|script| - 1], x, IsSync);
    }
  }

  lemma SyncsGrow(script: seq<Message>, x: nat, y: nat)
    requires x <= y <= |script|
    ensures SyncsIn(script[..x]) <= SyncsIn(script[..y])
  {
    assert script[..y][..x] == script[..x];
    FilterGrows(script[..y], x, IsSync);
  }

  lemma MasksGrow(script: seq<Message>, md: Metadata, x: nat, y: nat)
    requires x <= y <= |script|
    ensures |FieldMasks(script[..x], md)| <= |FieldMasks(script[..y], md)|
  {
    assert script[..y][..x] == script[..x];
    FilterGrows(script[..y], x, IsMaskOf(md));
  }

  lemma AttainedBy(scripts: Scripts, k: nat, r: Peer)
    requires Attained(scripts, k) && r in scripts
    ensures k <= SyncsIn(scripts[r])
  {
  }

  /** Client `p` sends its first `n` messages, the others only as much as it takes to synchronize `k`
      times. */
  function Ahead(scripts: Scripts, p: Peer, n: nat, k: nat): Goal
    requires Attained(scripts, k)
  {
    map r | r in scripts :: if r == p then n else AttainedBy(scripts, k, r); LeastPrefix(scripts[r], k)
  }

  lemma AheadIsGoal(scripts: Scripts, p: Peer, i: nat, k: nat)
    requires p in scripts && i < |scripts[p]| && Attained(scripts, k) && k == SyncsIn(scripts[p][..i])
    ensures IsGoal(scripts, Ahead(scripts, p, i + 1, k))
  {
    hide SyncsIn, Attained;
    var goal := Ahead(scripts, p, i + 1, k);
    forall a, x: nat | a in scripts && x < goal[a] ensures SyncsIn(scripts[a][..x]) <= k {
      if a == p {
        SyncsGrow(scripts[p], x, i);
      } else {
        AttainedBy(scripts, k, a);
      }
    }
    forall b | b in scripts ensures k <= SyncsIn(scripts[b][..goal[b]]) {
      if b == p {
        SyncsGrow(scripts[p], i, i + 1);
      } else {
        AttainedBy(scripts, k, b);
      }
    }
  }

  // ---- the state at a goal

  lemma StartIsBelow(scripts: Scripts, goal: Goal)
    requires IsGoal(scripts, goal)
    ensures Typed(scripts, Initial(scripts)) && Below(scripts, Initial(scripts), goal)
  {
    assert goal.Keys == scripts.Keys;
    hide IsGoal;
  }

  /** Every goal is reached from the start. */
  lemma GoalReachable(layout: Layout, scripts: Scripts, goal: Goal) returns (t: State)
    requires GoodClients(layout, scripts) && IsGoal(scripts, goal)
    ensures Reachable(scripts, t) && Typed(scripts, t) && AtGoal(scripts, t, goal)
  {
    hide GoodClients, IsGoal, Reachable, Typed, AtGoal, Below, Extends;
    StartIsReachable(scripts);
    StartIsBelow(scripts, goal);
    t := GoalReached(layout, scripts, Initial(scripts), goal, M.Bound(scripts.Keys));
  }

  lemma AllReceivedFrom(scripts: Scripts, t: State, r: Peer)
    requires Typed(scripts, t) && Channelled(scripts, t) && r in scripts && t.channels[r] == []
    ensures From(t.received, r) == scripts[r][..t.sent[r]]
  {
    hide D.Sane, From;
    assert From(t.received, r) + t.channels[r] == From(t.received, r);
  }

  /** At a goal, what a client has sent up to it has been received and handled. */
  lemma ReceivedAt(layout: Layout, scripts: Scripts, t: State, goal: Goal, r: Peer)
    requires GoodClients(layout, scripts) && Reachable(scripts, t) && IsGoal(scripts, goal)
    requires Typed(scripts, t) && AtGoal(scripts, t, goal) && r in scripts
    ensures From(t.received, r) == scripts[r][..goal[r]]
  {
    ReachableKeeps(layout, scripts, t);
    AllReceivedFrom(scripts, t, r);
  }

  lemma AllHandled(layout: Layout, scripts: Scripts, t: State, md: Metadata)
    requires GoodClients(layout, scripts) && Invariant(layout, scripts, t) && t.handled == |t.listener.queue|
    ensures FieldMasks(Handled(t), md) == FieldMasks(t.received, md)
  {
    hide From, Lockstep, D.Sane, D.Serve, D.CanServe, Filter, Passed, Channelled, FieldMasks, WellOrdered, L.Run, L.Clients,
         SoundLayout;
    QueueOrdered(layout, |scripts|, t.received);
    assert Handled(t) == t.listener.queue;
  }

  lemma HandledAt(layout: Layout, scripts: Scripts, t: State, goal: Goal, md: Metadata)
    requires GoodClients(layout, scripts) && Reachable(scripts, t) && IsGoal(scripts, goal)
    requires Typed(scripts, t) && AtGoal(scripts, t, goal)
    ensures FieldMasks(Handled(t), md) == FieldMasks(t.received, md)
  {
    ReachableKeeps(layout, scripts, t);
    AllHandled(layout, scripts, t, md);
  }

  /** If a peer may send a mask too early, it can be two masks ahead of another. */
  lemma RunsAhead(layout: Layout, scripts: Scripts, md: Metadata, p: Peer, q: Peer, i: nat, j: nat) returns (t: State)
    requires GoodClients(layout, scripts) && p in scripts && q in scripts && p != q
    requires !PacedAt(scripts, scripts[p], scripts[q], md, i, j)
    ensures Reachable(scripts, t) && Typed(scripts, t)
    ensures FieldMasks(Handled(t), md) == FieldMasks(t.received, md)
    ensures |FieldMasks(From(t.received, p), md)| >= |FieldMasks(From(t.received, q), md)| + 2
  {
    var k := SyncsIn(scripts[p][..i]);
    assert i < |scripts[p]| && Attained(scripts, k);
    var goal := Ahead(scripts, p, i + 1, k);
    AheadIsGoal(scripts, p, i, k);
    MoreMasks(scripts, md, p, q, i, j);
    hide GoodClients, Reachable, IsGoal, Typed, AtGoal, SyncsIn, FieldMasks, From, Attained, PacedAt, Ahead;
    t := GoalReachable(layout, scripts, goal);
    HandledAt(layout, scripts, t, goal, md);
    ReceivedAt(layout, scripts, t, goal, p);
    ReceivedAt(layout, scripts, t, goal, q);
  }

  lemma MoreMasks(scripts: Scripts, md: Metadata, p: Peer, q: Peer, i: nat, j: nat)
    requires p in scripts && q in scripts && p != q && !PacedAt(scripts, scripts[p], scripts[q], md, i, j)
    ensures var goal := Ahead(scripts, p, i + 1, SyncsIn(scripts[p][..i]));
            && i < |scripts[p]| && goal.Keys == scripts.Keys && goal[q] <= |scripts[q]| && goal[p] == i + 1
            && |FieldMasks(scripts[p][..goal[p]], md)| >= |FieldMasks(scripts[q][..goal[q]], md)| + 2
  {
    hide SyncsIn, FieldMasks, Attained;
    var mine, other, k := scripts[p], scripts[q], SyncsIn(scripts[p][..i]);
    assert mine[..i + 1] == mine[..i] + [mine[i]];
    FieldMasksSnoc(mine[..i], mine[i], md);
    AttainedBy(scripts, k, q);
    var j0 := LeastPrefix(other, k);
    assert !(j < j0);
    MasksGrow(other, md, j0, j);
  }

  lemma TwoAheadNotInStep(ms: seq<Message>, md: Metadata, peers: set<Peer>, p: Peer, q: Peer)
    requires p in peers && q in peers && |FieldMasks(From(ms, p), md)| >= |FieldMasks(From(ms, q), md)| + 2
    ensures !Lockstep(Sources(FieldMasks(ms, md)), peers)
  {
    hide Lockstep, From, Sources, Count;
    CountOf(ms, IsMaskOf(md), p);
    CountOf(ms, IsMaskOf(md), q);
    if Lockstep(Sources(FieldMasks(ms, md)), peers) {
      LockstepGap(Sources(FieldMasks(ms, md)), peers, p, q);
    }
  }

  // ---- exactness

  /** The parts of every build of the field come one from each peer, and no two waiting parts come from
      the same peer. */
  ghost predicate BuiltInStep(layout: Layout, s: State, md: Metadata) {
    AreRounds(ChunksOf(s.server, md), Parts(layout, md.domain).Keys)
  }

  /** If the field is not paced, some reachable state has received its masks out of step, and its
      builds and waiting parts are no rounds. */
  lemma OutOfStep(layout: Layout, scripts: Scripts, md: Metadata) returns (t: State)
    requires GoodClients(layout, scripts) && !Paced(layout, scripts, md)
    ensures Reachable(scripts, t) && !InStep(layout, t, md) && !BuiltInStep(layout, t, md)
  {
    hide GoodClients, Reachable, PacedAt, FieldMasks, From, Lockstep, AreRounds, Parts, Typed;
    var p, q, i: nat, j: nat :| p in Parts(layout, md.domain) && q in Parts(layout, md.domain) && p in scripts
      && q in scripts && p != q && !PacedAt(scripts, scripts[p], scripts[q], md, i, j);
    t := RunsAhead(layout, scripts, md, p, q, i, j);
    TwoAheadNotInStep(t.received, md, Parts(layout, md.domain).Keys, p, q);
    InStepIffBuilt(layout, scripts, t, md);
  }

  lemma InStepIffBuilt(layout: Layout, scripts: Scripts, t: State, md: Metadata)
    requires GoodClients(layout, scripts) && Reachable(scripts, t) && Parts(layout, md.domain).Keys != {}
    ensures Typed(scripts, t)
    ensures BuiltInStep(layout, t, md) <==> Lockstep(Sources(FieldMasks(Handled(t), md)), Parts(layout, md.domain).Keys)
  {
    ReachableKeeps(layout, scripts, t);
    assert Typed(scripts, t);
    hide GoodClients, Reachable, Lockstep, AreRounds, Parts, FieldMasks, Invariant, Holds, ChunksOf, Sources;
    HandledOrdered(layout, scripts, t);
    BuiltInRounds(layout, Handled(t), md);
  }

  /** A field is paced exactly when its masks arrive in lockstep in every run. */
  lemma PacedIffInStep(layout: Layout, scripts: Scripts, md: Metadata)
    requires GoodClients(layout, scripts)
    ensures Paced(layout, scripts, md) <==> forall s :: Reachable(scripts, s) ==> InStep(layout, s, md)
  {
    hide GoodClients, Reachable, Paced, InStep, BuiltInStep;
    if Paced(layout, scripts, md) {
      forall s | Reachable(scripts, s) ensures InStep(layout, s, md) {
        ReachableInStep(layout, scripts, s, md);
      }
    } else {
      var t := OutOfStep(layout, scripts, md);
    }
  }

  /** A field is paced exactly when in every run it is built in rounds: each time from one mask of each
      peer of its domain. */
  lemma PacedIffBuilt(layout: Layout, scripts: Scripts, md: Metadata)
    requires GoodClients(layout, scripts) && md.domain in layout.domains
    ensures Paced(layout, scripts, md) <==> forall s :: Reachable(scripts, s) ==> BuiltInStep(layout, s, md)
  {
    hide GoodClients, Reachable, Paced, InStep, Accumulate, AreRounds, ChunksOf;
    if Paced(layout, scripts, md) {
      forall s | Reachable(scripts, s) ensures BuiltInStep(layout, s, md) {
        BuiltOncePerRound(layout, scripts, s, md);
      }
    } else {
      var t := OutOfStep(layout, scripts, md);
    }
  }

  /** A field with a single peer is always paced. */
  lemma AloneIsPaced(layout: Layout, scripts: Scripts, md: Metadata)
    requires |Parts(layout, md.domain).Keys| <= 1
    ensures Paced(layout, scripts, md)
  {
    hide PacedAt, Parts;
    forall p, q | p in Parts(layout, md.domain) && q in Parts(layout, md.domain) ensures p == q {
      SubsetSize({p, q}, Parts(layout, md.domain).Keys);
    }
  }

  // ---- a client that sends alone

  lemma {:induction false} FromOne(ms: seq<Message>, p: Peer)
    requires forall q :: q != p ==> From(ms, q) == []
    ensures From(ms, p) == ms
    decreases |ms|
  {
    if ms != [] {
      var init, m := ms[..|ms| - 1], ms[|ms| - 1];
      assert ms == init + [m];
      forall q ensures From(ms, q) == From(init, q) + if m.source == q then [m] else [] {
        FromSnoc(init, m, q);
      }
      assert From(ms, m.source) != [];
      FromOne(init, p);
    }
  }

  /** If nobody but `p` has sent masks of the field, all of them are those of `p`. */
  lemma MasksOfOne(layout: Layout, scripts: Scripts, t: State, md: Metadata, p: Peer)
    requires GoodClients(layout, scripts) && Invariant(layout, scripts, t) && p in scripts
    requires forall q :: q in scripts && q != p ==> FieldMasks(From(t.received, q), md) == []
    ensures FieldMasks(t.received, md) == FieldMasks(From(t.received, p), md)
  {
    hide GoodClients, WellOrdered, Lockstep, D.Sane, D.Serve, D.CanServe, Passed, SoundLayout, L.Run, From, Filter;
    forall q | q != p ensures From(FieldMasks(t.received, md), q) == [] {
      FromFilter(t.received, IsMaskOf(md), q);
      if q !in scripts {
        NobodyFrom(t.received, q);
      }
    }
    FromOne(FieldMasks(t.received, md), p);
    FromFilter(t.received, IsMaskOf(md), p);
  }

  lemma {:induction false} NobodyFrom(ms: seq<Message>, q: Peer)
    requires forall i :: 0 <= i < |ms| ==> ms[i].source != q
    ensures From(ms, q) == []
    decreases |ms|
  {
    if ms != [] {
      NobodyFrom(ms[..|ms| - 1], q);
    }
  }

  /** Every peer of the domain has described its part, in messages that are handled. */
  lemma DescribedAt(layout: Layout, scripts: Scripts, s: State, name: string)
    requires GoodClients(layout, scripts) && Invariant(layout, scripts, s) && s.handled == |s.listener.queue|
    requires forall r :: r in Parts(layout, name) ==> r in Registered(From(s.received, r), name)
    ensures Parts(layout, name).Keys <= Registered(Handled(s), name)
  {
    hide L.Clients, WellOrdered, Lockstep, D.Sane, D.Serve, D.CanServe, Passed, SoundLayout, L.Run, From, Filter, Registered,
         Parts, Channelled, FieldMasks;
    QueueOrdered(layout, |scripts|, s.received);
    assert Handled(s) == s.listener.queue;
    forall r | r in Parts(layout, name) ensures r in Registered(s.received, name) {
      RegisteredFrom(s.received, r, name);
    }
  }

  lemma EarlierHandled(s: State, t: State)
    requires Extends(s, t) && s.handled <= |s.listener.queue| && t.handled <= |t.listener.queue|
    ensures s.handled <= |Handled(t)| && Handled(t)[..s.handled] == Handled(s)
  {
    assert t.listener.queue[..|s.listener.queue|] == s.listener.queue;
  }

  lemma QuietAt(layout: Layout, scripts: Scripts, s: State, goal: Goal)
    requires GoodClients(layout, scripts) && Reachable(scripts, s)
    requires Typed(scripts, s) && IsGoal(scripts, goal) && AtGoal(scripts, s, goal)
    ensures Invariant(layout, scripts, s) && s.handled == |s.listener.queue|
  {
    ReachableKeeps(layout, scripts, s);
  }

  /** Between a state where all peers have described their parts and none has sent a mask, and a later
      one where only `p` has sent masks, the server counts the masks of `p`. */
  lemma CountsOne(layout: Layout, scripts: Scripts, s: State, t: State, md: Metadata, p: Peer)
    requires GoodClients(layout, scripts) && Invariant(layout, scripts, s) && Invariant(layout, scripts, t)
    requires Extends(s, t) && s.handled == |s.listener.queue| && t.handled == |t.listener.queue|
    requires p in scripts && Parts(layout, md.domain).Keys != {}
    requires forall r :: r in Parts(layout, md.domain) ==> r in Registered(From(s.received, r), md.domain)
    requires forall r :: r in scripts ==> FieldMasks(From(s.received, r), md) == []
    requires forall r :: r in scripts && r != p ==> FieldMasks(From(t.received, r), md) == []
    ensures ChunksOf(t.server, md) == Accumulate(FieldMasks(From(t.received, p), md), |Parts(layout, md.domain)|)
  {
    DescribedAt(layout, scripts, s, md.domain);
    MasksOfOne(layout, scripts, s, md, p);
    MasksOfOne(layout, scripts, t, md, p);
    AllHandled(layout, scripts, s, md);
    AllHandled(layout, scripts, t, md);
    HandledOrdered(layout, scripts, t);
    EarlierHandled(s, t);
    hide GoodClients, Invariant, FieldMasks, From, Registered, WellOrdered, Holds, Accumulate, ChunksOf, Parts, Handled;
    CountsOnly(layout, Handled(t), s.handled, md);
  }

  /** Up to the goal, every peer of the domain describes its part, and nobody but `p` sends a mask. */
  ghost predicate DescribeFirst(layout: Layout, scripts: Scripts, goal: Goal, md: Metadata) {
    && goal.Keys == scripts.Keys && (forall r :: r in scripts ==> goal[r] <= |scripts[r]|)
    && (forall r :: r in Parts(layout, md.domain) ==> r in scripts && r in Registered(scripts[r][..goal[r]], md.domain))
    && (forall r :: r in scripts ==> FieldMasks(scripts[r][..goal[r]], md) == [])
  }

  ghost predicate OnlyFrom(scripts: Scripts, goal: Goal, md: Metadata, p: Peer) {
    && goal.Keys == scripts.Keys && (forall r :: r in scripts ==> goal[r] <= |scripts[r]|)
    && p in scripts && forall r :: r in scripts && r != p ==> FieldMasks(scripts[r][..goal[r]], md) == []
  }

  /** If all clients first describe their domains and `p` then sends masks while the others wait, the
      server builds the field from every n masks of `p`. */
  lemma OneSender(layout: Layout, scripts: Scripts, s: State, described: Goal, t: State, ahead: Goal, md: Metadata, p: Peer)
    requires GoodClients(layout, scripts) && Reachable(scripts, s) && Reachable(scripts, t) && Extends(s, t)
    requires Typed(scripts, s) && IsGoal(scripts, described) && AtGoal(scripts, s, described)
    requires Typed(scripts, t) && IsGoal(scripts, ahead) && AtGoal(scripts, t, ahead)
    requires DescribeFirst(layout, scripts, described, md) && OnlyFrom(scripts, ahead, md, p)
    requires Parts(layout, md.domain).Keys != {}
    ensures ChunksOf(t.server, md) == Accumulate(FieldMasks(scripts[p][..ahead[p]], md), |Parts(layout, md.domain)|)
  {
    hide GoodClients, Reachable, Typed, IsGoal, AtGoal, Invariant, FieldMasks, From, Registered, ChunksOf, Accumulate,
         Extends, Parts;
    QuietAt(layout, scripts, s, described);
    QuietAt(layout, scripts, t, ahead);
    forall r | r in scripts
      ensures From(s.received, r) == scripts[r][..described[r]] && From(t.received, r) == scripts[r][..ahead[r]]
    {
      ReceivedAt(layout, scripts, s, described, r);
      ReceivedAt(layout, scripts, t, ahead, r);
    }
    CountsOne(layout, scripts, s, t, md, p);
  }
}
