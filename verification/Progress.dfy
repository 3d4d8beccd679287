/** Runs of the network end: every step uses up work, and what is left can always be done. */
module Progress {
  import opened Messages
  import opened FieldAssembly
  import opened Network
  import D = Dispatcher
  import opened Rounds
  import L = Listener
  import M = Mappings

  /** Steps taken: messages sent by peers below `n`, received, and handled. */
  ghost function SentBelow(sent: map<Peer, nat>, n: nat): nat {
    if n == 0 then 0 else SentBelow(sent, n - 1) + if n - 1 in sent then sent[n - 1] else 0
  }

  ghost function ScriptsBelow(scripts: Scripts, n: nat): nat {
    if n == 0 then 0 else ScriptsBelow(scripts, n - 1) + if n - 1 in scripts then |scripts[n - 1]| else 0
  }

  ghost function ReceivedBelow(scripts: Scripts, ms: seq<Message>, n: nat): nat {
    if n == 0 then 0 else ReceivedBelow(scripts, ms, n - 1) + if n - 1 in scripts then |From(ms, n - 1)| else 0
  }

  ghost function Steps(s: State, n: nat): nat {
    SentBelow(s.sent, n) + |s.received| + s.handled
  }

  lemma {:induction false} SentOne(sent: map<Peer, nat>, p: Peer, n: nat)
    requires p in sent
    ensures SentBelow(sent[p := sent[p] + 1], n) == SentBelow(sent, n) + if p < n then 1 else 0
    decreases n
  {
    if n != 0 {
      SentOne(sent, p, n - 1);
    }
  }

  lemma {:induction false} SentNothing(sent: map<Peer, nat>, n: nat)
    requires forall p :: p in sent ==> sent[p] == 0
    ensures SentBelow(sent, n) == 0
    decreases n
  {
    if n != 0 {
      SentNothing(sent, n - 1);
    }
  }

  lemma {:induction false} ReceivedOne(scripts: Scripts, ms: seq<Message>, m: Message, n: nat)
    ensures ReceivedBelow(scripts, ms + [m], n)
            == ReceivedBelow(scripts, ms, n) + if m.source < n && m.source in scripts then 1 else 0
    decreases n
  {
    if n != 0 {
      ReceivedOne(scripts, ms, m, n - 1);
      FromSnoc(ms, m, n - 1);
    }
  }

  /** Every message comes from some client. */
  lemma {:induction false} ReceivedTotal(scripts: Scripts, ms: seq<Message>, n: nat)
    requires forall i :: 0 <= i < |ms| ==> ms[i].source in scripts && ms[i].source < n
    ensures ReceivedBelow(scripts, ms, n) == |ms|
    decreases |ms|
  {
    if ms == [] {
      ReceivedNothing(scripts, n);
    } else {
      var init, m := ms[..|ms| - 1], ms[|ms| - 1];
      assert ms == init + [m];
      ReceivedTotal(scripts, init, n);
      ReceivedOne(scripts, init, m, n);
    }
  }

  lemma {:induction false} ReceivedNothing(scripts: Scripts, n: nat)
    ensures ReceivedBelow(scripts, [], n) == 0
    decreases n
  {
    if n != 0 {
      ReceivedNothing(scripts, n - 1);
    }
  }

  /** No more is received than sent, and no more sent than there is to send. */
  lemma {:induction false} SentBounds(scripts: Scripts, s: State, n: nat)
    requires Typed(scripts, s) && Channelled(scripts, s)
    ensures ReceivedBelow(scripts, s.received, n) <= SentBelow(s.sent, n) <= ScriptsBelow(scripts, n)
    decreases n
  {
    hide From, D.Sane;
    if n != 0 {
      SentBounds(scripts, s, n - 1);
      if n - 1 in scripts {
        var p := n - 1;
        assert |From(s.received, p)| + |s.channels[p]| == |From(s.received, p) + s.channels[p]| == s.sent[p];
      }
    }
  }

  lemma {:induction false} QueueBound(n: nat, ms: seq<Message>)
    ensures |L.Run(n, ms).queue| <= |ms|
    decreases |ms|
  {
    if ms != [] {
      QueueBound(n, ms[..|ms| - 1]);
    }
  }

  /** Three steps for every message there is to send: sending, receiving, handling. */
  lemma StepsBounded(layout: Layout, scripts: Scripts, s: State, n: nat)
    requires GoodClients(layout, scripts) && Invariant(layout, scripts, s) && M.Bounds(scripts.Keys, n)
    ensures Steps(s, n) <= 3 * ScriptsBelow(scripts, n)
  {
    hide From, D.Sane, WellOrdered, Lockstep, D.Serve, D.CanServe, Passed, SoundLayout, L.Clients, L.Run;
    SentBounds(scripts, s, n);
    ReceivedTotal(scripts, s.received, n);
    QueueBound(|scripts|, s.received);
  }

  lemma StepUsed(scripts: Scripts, s: State, s': State, n: nat)
    requires Typed(scripts, s) && Next(scripts, s, s') && M.Bounds(scripts.Keys, n)
    ensures Steps(s', n) == Steps(s, n) + 1
  {
    hide D.Sane, L.CanReceive, L.MoreConnections, L.Step, SyncsIn, D.Proper, D.CanHandle;
    if p :| CanSend(scripts, s, p) && s' == Send(scripts, s, p) {
      assert p in scripts.Keys;
      SentOne(s.sent, p, n);
    }
  }

  lemma NoSteps(scripts: Scripts, n: nat)
    ensures Steps(Initial(scripts), n) == 0
  {
    SentNothing(Initial(scripts).sent, n);
  }

  /** A run of `k` states has taken `k - 1` steps, so no run is longer than three times the number of
      messages there are to send. */
  lemma {:induction false} RunsEnd(layout: Layout, scripts: Scripts, run: seq<State>, n: nat)
    requires GoodClients(layout, scripts) && run != [] && IsRun(scripts, run) && M.Bounds(scripts.Keys, n)
    ensures |run| == 1 + Steps(run[|run| - 1], n) <= 1 + 3 * ScriptsBelow(scripts, n)
    decreases |run|
  {
    hide Invariant, GoodClients, Next, Typed, Steps;
    RunKeeps(layout, scripts, run);
    StepsBounded(layout, scripts, run[|run| - 1], n);
    if |run| == 1 {
      NoSteps(scripts, n);
    } else {
      hide IsRun;
      var init := LastStep(scripts, run);
      RunsEnd(layout, scripts, init, n);
      StepUsed(scripts, init[|init| - 1], run[|run| - 1], n);
    }
  }

  // ---- goals

  /** How far each client is to get. */
  type Goal = map<Peer, nat>

  /** No client has to pass a synchronization on the way that another does not reach. */
  ghost predicate IsGoal(scripts: Scripts, goal: Goal) {
    && goal.Keys == scripts.Keys
    && (forall p :: p in scripts ==> goal[p] <= |scripts[p]|)
    && forall p, q, x: nat :: p in scripts && q in scripts && x < goal[p] ==>
         SyncsIn(scripts[p][..x]) <= SyncsIn(scripts[q][..goal[q]])
  }

  ghost predicate Below(scripts: Scripts, s: State, goal: Goal)
    requires Typed(scripts, s) && IsGoal(scripts, goal)
  {
    forall p :: p in scripts ==> s.sent[p] <= goal[p]
  }

  /** The clients are where they are to get, and everything is received and handled. */
  ghost predicate AtGoal(scripts: Scripts, s: State, goal: Goal)
    requires Typed(scripts, s) && IsGoal(scripts, goal)
  {
    && (forall p :: p in scripts ==> s.sent[p] == goal[p] && s.channels[p] == [])
    && s.handled == |s.listener.queue|
  }

  /** Nothing received or queued is lost in a step. */
  predicate Extends(s: State, t: State) {
    s.received <= t.received && s.listener.queue <= t.listener.queue && s.handled <= t.handled
  }

  lemma StepReachable(scripts: Scripts, s: State, s': State)
    requires Reachable(scripts, s) && Typed(scripts, s) && Next(scripts, s, s')
    ensures Reachable(scripts, s')
  {
    hide Typed, Next;
    var run :| run != [] && IsRun(scripts, run) && run[|run| - 1] == s;
    assert (run + [s'])[..|run|] == run;
    assert IsRun(scripts, run + [s']);
  }

  /** Where nothing is under way, some client has sent no more synchronizations than were queued. */
  lemma SomeoneWaits(layout: Layout, scripts: Scripts, s: State, p: Peer) returns (c: Peer)
    requires GoodClients(layout, scripts) && Invariant(layout, scripts, s) && p in scripts
    requires forall r :: r in scripts ==> s.channels[r] == []
    ensures c in scripts && SyncsIn(scripts[c][..s.sent[c]]) == Queued(s) <= SyncsIn(scripts[p][..s.sent[p]])
    ensures SyncsIn(scripts[p][..s.sent[p]]) <= Queued(s) + 1
  {
    hide WellOrdered, Lockstep, D.Sane, D.Serve, D.CanServe, Passed, SoundLayout, L.Run, From, L.Clients, SyncsIn;
    assert |scripts| == |scripts.Keys|;
    c := FewestSyncs(scripts.Keys, s.received, p);
    hide Lockstep, Filter, Sources, Channelled;
    SentSyncs(scripts, s, c);
    SentSyncs(scripts, s, p);
  }

  lemma FewestSyncs(peers: set<Peer>, ms: seq<Message>, p: Peer) returns (c: Peer)
    requires p in peers && Lockstep(Sources(Filter(ms, IsSync)), peers)
    ensures c in peers && SyncsIn(From(ms, c)) == SyncsIn(L.Run(|peers|, ms).queue)
    ensures SyncsIn(L.Run(|peers|, ms).queue) <= SyncsIn(From(ms, p)) <= SyncsIn(L.Run(|peers|, ms).queue) + 1
  {
    hide SyncsIn, Lockstep, Sources, Filter, L.Run, From;
    QueuedByAll(peers, ms, p);
    c :| c in peers && SyncsIn(From(ms, c)) == SyncsIn(L.Run(|peers|, ms).queue);
  }

  /** Where nothing is under way, some client short of the goal can send. */
  lemma SomeoneSends(layout: Layout, scripts: Scripts, s: State, goal: Goal, p: Peer) returns (q: Peer)
    requires GoodClients(layout, scripts) && Invariant(layout, scripts, s) && IsGoal(scripts, goal)
    requires s.handled == |s.listener.queue| && forall r :: r in scripts ==> s.channels[r] == []
    requires Below(scripts, s, goal) && p in scripts && s.sent[p] < goal[p]
    ensures q in scripts && s.sent[q] < goal[q] && CanSend(scripts, s, q)
  {
    hide GoodClients, WellOrdered, Lockstep, D.Sane, D.Serve, D.CanServe, Filter, Passed, SoundLayout, L.Run, From,
         Channelled, SyncsIn, L.Clients;
    var c := SomeoneWaits(layout, scripts, s, p);
    assert Handled(s) == s.listener.queue;
    q := if s.sent[c] < goal[c] then c else p;
    assert SyncsIn(scripts[p][..s.sent[p]]) <= SyncsIn(scripts[c][..goal[c]]);
  }

  lemma Short(scripts: Scripts, s: State, goal: Goal) returns (p: Peer)
    requires Typed(scripts, s) && IsGoal(scripts, goal) && Below(scripts, s, goal) && !AtGoal(scripts, s, goal)
    requires s.handled == |s.listener.queue| && forall r :: r in scripts ==> s.channels[r] == []
    ensures p in scripts && s.sent[p] < goal[p]
  {
    hide D.Sane;
    p :| p in scripts && s.sent[p] != goal[p];
  }

  lemma SendTowards(scripts: Scripts, s: State, goal: Goal, q: Peer) returns (s': State)
    requires Reachable(scripts, s) && Typed(scripts, s) && IsGoal(scripts, goal) && Below(scripts, s, goal)
    requires q in scripts && s.sent[q] < goal[q] && CanSend(scripts, s, q)
    ensures Typed(scripts, s') && Reachable(scripts, s') && Next(scripts, s, s') && Below(scripts, s', goal) && Extends(s, s')
  {
    hide Reachable, IsGoal, SyncsIn;
    s' := Send(scripts, s, q);
    StepReachable(scripts, s, s');
  }

  lemma ReceiveTowards(scripts: Scripts, s: State, goal: Goal, q: Peer) returns (s': State)
    requires Reachable(scripts, s) && Typed(scripts, s) && IsGoal(scripts, goal) && Below(scripts, s, goal)
    requires CanReceive(scripts, s, q)
    ensures Typed(scripts, s') && Reachable(scripts, s') && Next(scripts, s, s') && Below(scripts, s', goal) && Extends(s, s')
  {
    hide Reachable, IsGoal, L.CanReceive, L.MoreConnections, D.Sane;
    s' := Receive(scripts, s, q);
    StepReachable(scripts, s, s');
  }

  lemma DispatchTowards(scripts: Scripts, s: State, goal: Goal) returns (s': State)
    requires Reachable(scripts, s) && Typed(scripts, s) && IsGoal(scripts, goal) && Below(scripts, s, goal)
    requires CanDispatch(scripts, s)
    ensures Typed(scripts, s') && Reachable(scripts, s') && Next(scripts, s, s') && Below(scripts, s', goal) && Extends(s, s')
  {
    hide Reachable, IsGoal, D.Proper, D.CanHandle;
    s' := Dispatch(scripts, s);
    StepReachable(scripts, s, s');
  }

  /** A state short of a goal has a step that does not overshoot it. */
  lemma StepTowards(layout: Layout, scripts: Scripts, s: State, goal: Goal) returns (s': State)
    requires GoodClients(layout, scripts) && Reachable(scripts, s) && IsGoal(scripts, goal)
    requires Typed(scripts, s) && Below(scripts, s, goal) && !AtGoal(scripts, s, goal)
    ensures Typed(scripts, s') && Reachable(scripts, s') && Next(scripts, s, s') && Below(scripts, s', goal) && Extends(s, s')
  {
    hide GoodClients, Reachable, Invariant, CanSend, CanReceive, CanDispatch, Send, Receive, Dispatch, IsGoal, D.Sane, Next;
    NeverRaises(layout, scripts, s);
    if s.handled < |s.listener.queue| {
      s' := DispatchTowards(scripts, s, goal);
    } else if p :| p in scripts && s.channels[p] != [] {
      s' := ReceiveTowards(scripts, s, goal, p);
    } else {
      ReachableKeeps(layout, scripts, s);
      var p := Short(scripts, s, goal);
      var q := SomeoneSends(layout, scripts, s, goal, p);
      s' := SendTowards(scripts, s, goal, q);
    }
  }

  /** From every state short of a goal, the goal can be reached. */
  lemma {:induction false} GoalReached(layout: Layout, scripts: Scripts, s: State, goal: Goal, n: nat) returns (t: State)
    requires GoodClients(layout, scripts) && Reachable(scripts, s) && IsGoal(scripts, goal)
    requires Typed(scripts, s) && Below(scripts, s, goal) && M.Bounds(scripts.Keys, n)
    ensures Reachable(scripts, t) && Typed(scripts, t) && AtGoal(scripts, t, goal) && Extends(s, t)
    decreases 3 * ScriptsBelow(scripts, n) - Steps(s, n)
  {
    hide GoodClients, Reachable, Invariant, Next, AtGoal, Below, IsGoal, Steps, Typed;
    if AtGoal(scripts, s, goal) {
      t := s;
    } else {
      var s' := StepTowards(layout, scripts, s, goal);
      StepUsed(scripts, s, s', n);
      ReachableKeeps(layout, scripts, s);
      ReachableKeeps(layout, scripts, s');
      StepsBounded(layout, scripts, s', n);
      t := GoalReached(layout, scripts, s', goal, n);
    }
  }

  // ---- the end

  function Ends(scripts: Scripts): Goal {
    map p | p in scripts :: |scripts[p]|
  }

  /** All clients can get to the end if they synchronize equally often. */
  lemma EndsIsGoal(scripts: Scripts)
    requires EqualSyncs(scripts)
    ensures IsGoal(scripts, Ends(scripts))
  {
    forall p, q, x: nat | p in scripts && q in scripts && x < |scripts[p]|
      ensures SyncsIn(scripts[p][..x]) <= SyncsIn(scripts[q][..Ends(scripts)[q]])
    {
      FilterGrows(scripts[p], x, IsSync);
      assert scripts[q][..|scripts[q]|] == scripts[q];
    }
  }

  lemma EndsAreEnds(scripts: Scripts, s: State)
    requires Typed(scripts, s) && IsGoal(scripts, Ends(scripts))
    ensures Below(scripts, s, Ends(scripts))
    ensures AtGoal(scripts, s, Ends(scripts)) <==> Finished(scripts, s)
  {
    hide IsGoal;
  }

  lemma ReachableTyped(layout: Layout, scripts: Scripts, s: State)
    requires GoodClients(layout, scripts) && Reachable(scripts, s)
    ensures Typed(scripts, s)
  {
    ReachableKeeps(layout, scripts, s);
  }

  lemma NextCanStep(scripts: Scripts, s: State, s': State)
    requires Typed(scripts, s) && Next(scripts, s, s')
    ensures CanStep(scripts, s)
  {
    hide Typed, CanSend, CanReceive, CanDispatch, Send, Receive, Dispatch;
  }

  /** If all clients synchronize equally often, no reachable state is stuck before the end. */
  lemma NeverStuck(layout: Layout, scripts: Scripts, s: State)
    requires GoodClients(layout, scripts) && Reachable(scripts, s) && EqualSyncs(scripts)
    ensures Typed(scripts, s) && (CanStep(scripts, s) || Finished(scripts, s))
  {
    hide GoodClients, Reachable, EqualSyncs, IsGoal, AtGoal, Below, Typed, Finished, CanStep, Next, Ends;
    ReachableTyped(layout, scripts, s);
    EndsIsGoal(scripts);
    EndsAreEnds(scripts, s);
    if !AtGoal(scripts, s, Ends(scripts)) {
      var s' := StepTowards(layout, scripts, s, Ends(scripts));
      NextCanStep(scripts, s, s');
    }
  }

  /** If all clients synchronize equally often, every run can be continued until everything has been
      sent, received and handled. */
  lemma CanFinish(layout: Layout, scripts: Scripts, s: State) returns (t: State)
    requires GoodClients(layout, scripts) && Reachable(scripts, s) && EqualSyncs(scripts)
    ensures Reachable(scripts, t) && Typed(scripts, t) && Finished(scripts, t)
  {
    hide GoodClients, Reachable, EqualSyncs, IsGoal, AtGoal, Below, Typed, Finished, Ends, Extends;
    ReachableTyped(layout, scripts, s);
    EndsIsGoal(scripts);
    EndsAreEnds(scripts, s);
    t := GoalReached(layout, scripts, s, Ends(scripts), M.Bound(scripts.Keys));
    EndsAreEnds(scripts, t);
  }

  /** The protocol can come to its end exactly when all clients synchronize equally often. */
  lemma EndsIffEqualSyncs(layout: Layout, scripts: Scripts)
    requires GoodClients(layout, scripts)
    ensures EqualSyncs(scripts) <==> exists t :: Reachable(scripts, t) && Typed(scripts, t) && Finished(scripts, t)
  {
    hide GoodClients, Reachable, Typed, Finished, EqualSyncs;
    if EqualSyncs(scripts) {
      StartIsReachable(scripts);
      var t := CanFinish(layout, scripts, Initial(scripts));
    }
    if t :| Reachable(scripts, t) && Typed(scripts, t) && Finished(scripts, t) {
      FinishedState(layout, scripts, t);
    }
  }

  lemma StartIsReachable(scripts: Scripts)
    ensures Reachable(scripts, Initial(scripts))
  {
    var run := [Initial(scripts)];
    assert IsRun(scripts, run) && run[|run| - 1] == Initial(scripts);
  }
}
