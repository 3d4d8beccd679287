/** Rounds of contributions: when a counter that fires on every n-th contribution collects exactly
    one contribution of each of n peers. */
module Rounds {
  import opened Messages
  import opened Sets
  import opened Bits

  /** How often `p` occurs among the contributors. */
  function Count(srcs: seq<Peer>, p: Peer): nat {
    if srcs == [] then 0 else Count(srcs[..|srcs| - 1], p) + if srcs[|srcs| - 1] == p then 1 else 0
  }

  /** No peer contributes for the (r + 1)-th time before every peer has contributed r times. */
  predicate Lockstep(srcs: seq<Peer>, peers: set<Peer>) {
    forall i :: 0 <= i < |srcs| ==> srcs[i] in peers && Behind(srcs[..i], srcs[i], peers)
  }

  predicate Behind(srcs: seq<Peer>, p: Peer, peers: set<Peer>) {
    forall q :: q in peers ==> Count(srcs, p) <= Count(srcs, q)
  }

  function Members(srcs: seq<Peer>): set<Peer> {
    set p | p in srcs
  }

  /** Each peer exactly once. */
  predicate OneOfEach(srcs: seq<Peer>, peers: set<Peer>) {
    |srcs| == |peers| && Members(srcs) == peers
  }

  lemma CountSnoc(srcs: seq<Peer>, x: Peer, p: Peer)
    ensures Count(srcs + [x], p) == Count(srcs, p) + if x == p then 1 else 0
  {
    assert (srcs + [x])[..|srcs|] == srcs;
  }

  lemma {:induction false} CountConcat(a: seq<Peer>, b: seq<Peer>, p: Peer)
    ensures Count(a + b, p) == Count(a, p) + Count(b, p)
    decreases |b|
  {
    if b == [] {
      assert a + b == a;
    } else {
      var init, x := b[..|b| - 1], b[|b| - 1];
      assert a + b == a + init + [x];
      CountSnoc(a + init, x, p);
      CountConcat(a, init, p);
    }
  }

  lemma {:induction false} CountMember(srcs: seq<Peer>, p: Peer)
    ensures Count(srcs, p) >= 1 <==> p in srcs
    decreases |srcs|
  {
    if srcs != [] {
      var init, x := srcs[..|srcs| - 1], srcs[|srcs| - 1];
      assert srcs == init + [x];
      CountMember(init, p);
    }
  }

  lemma CountTwice(srcs: seq<Peer>, i: nat, j: nat)
    requires i < j < |srcs| && srcs[i] == srcs[j]
    ensures Count(srcs, srcs[j]) >= 2
  {
    hide Count;
    assert srcs == srcs[..j] + srcs[j..];
    CountConcat(srcs[..j], srcs[j..], srcs[j]);
    CountMember(srcs[..j], srcs[j]);
    CountMember(srcs[j..], srcs[j]);
    assert srcs[..j][i] == srcs[j] && srcs[j..][0] == srcs[j];
  }

  /** As many entries as members: no entry repeats. */
  lemma {:induction false} DistinctCount(srcs: seq<Peer>, p: Peer)
    ensures |Members(srcs)| <= |srcs|
    ensures |Members(srcs)| == |srcs| ==> Count(srcs, p) <= 1
    decreases |srcs|
  {
    if srcs != [] {
      var init, x := srcs[..|srcs| - 1], srcs[|srcs| - 1];
      assert srcs == init + [x];
      DistinctCount(init, p);
      CountMember(init, x);
      assert Members(srcs) == Members(init) + {x};
    }
  }

  lemma NoneTwice(srcs: seq<Peer>, i: nat, j: nat)
    requires |Members(srcs)| == |srcs| && i < j < |srcs|
    ensures srcs[i] != srcs[j]
  {
    hide Count, Members;
    DistinctCount(srcs, srcs[j]);
    if srcs[i] == srcs[j] {
      CountTwice(srcs, i, j);
    }
  }

  // ---- lockstep gives rounds

  /** After whole rounds, every peer has contributed `rounds` times and those in `current` once more. */
  ghost predicate InRound(srcs: seq<Peer>, peers: set<Peer>, rounds: nat, current: seq<Peer>) {
    && Members(current) <= peers
    && |Members(current)| == |current| < |peers|
    && forall p :: p in peers ==> Count(srcs, p) == rounds + if p in current then 1 else 0
  }

  lemma SomeoneMissing(peers: set<Peer>, current: set<Peer>) returns (q: Peer)
    requires current <= peers && |current| < |peers|
    ensures q in peers && q !in current
  {
    assert exists q :: q in peers && q !in current by {
      SubsetSize(peers, current + peers);
      assert peers == current + (peers - current);
      EmptyOrMember(peers - current);
    }
    q :| q in peers && q !in current;
  }

  /** The next contributor in lockstep is new to the round, and closes it if it is the last. */
  lemma NextInRound(srcs: seq<Peer>, peers: set<Peer>, rounds: nat, current: seq<Peer>, x: Peer)
    requires InRound(srcs, peers, rounds, current)
    requires x in peers && Behind(srcs, x, peers)
    ensures x !in current
    ensures |current| + 1 < |peers| ==> InRound(srcs + [x], peers, rounds, current + [x])
    ensures |current| + 1 == |peers| ==> OneOfEach(current + [x], peers) && InRound(srcs + [x], peers, rounds + 1, [])
  {
    var q := SomeoneMissing(peers, Members(current));
    assert Count(srcs, x) <= Count(srcs, q);
    forall p ensures Count(srcs + [x], p) == Count(srcs, p) + if x == p then 1 else 0 { CountSnoc(srcs, x, p); }
    assert Members(current + [x]) == Members(current) + {x};
    if |current| + 1 == |peers| {
      SubsetFull(Members(current + [x]), peers);
    }
  }

  lemma SubsetFull<T(!new)>(a: set<T>, b: set<T>)
    requires a <= b && |a| == |b|
    ensures a == b
  {
    EmptyOrMember(b - a);
    if x :| x in b - a {
      UnionSize(a, {x});
      assert a + {x} <= b;
      SubsetSize(a + {x}, b);
    }
  }

  lemma SubsetSize<T(!new)>(a: set<T>, b: set<T>)
    requires a <= b
    ensures |a| <= |b|
  {
    assert b == a + (b - a);
  }

  // ---- a counter that collects messages and fires on every n-th

  datatype Chunks = Chunks(complete: seq<seq<Message>>, pending: seq<Message>)

  /** Collects messages, closing a chunk whenever it holds `n`. */
  function Accumulate(ms: seq<Message>, n: nat): Chunks {
    if ms == [] then Chunks([], [])
    else
      var c := Accumulate(ms[..|ms| - 1], n);
      var pending := c.pending + [ms[|ms| - 1]];
      if |pending| == n then Chunks(c.complete + [pending], []) else Chunks(c.complete, pending)
  }

  function Sources(ms: seq<Message>): (srcs: seq<Peer>)
    ensures |srcs| == |ms| && forall i :: 0 <= i < |ms| ==> srcs[i] == ms[i].source
  {
    if ms == [] then [] else Sources(ms[..|ms| - 1]) + [ms[|ms| - 1].source]
  }

  lemma OneOfEachDiffer(ms: seq<Message>, peers: set<Peer>, i: nat, j: nat)
    requires OneOfEach(Sources(ms), peers) && i < j < |ms|
    ensures ms[i].source != ms[j].source
  {
    hide Sources;
    NoneTwice(Sources(ms), i, j);
    assert Sources(ms)[i] == ms[i].source;
  }

  lemma SourcesSnoc(ms: seq<Message>, m: Message)
    ensures Sources(ms + [m]) == Sources(ms) + [m.source]
  {
    assert (ms + [m])[..|ms|] == ms;
  }

  lemma AccumulateSnoc(ms: seq<Message>, m: Message, n: nat)
    ensures var c := Accumulate(ms, n);
            Accumulate(ms + [m], n) ==
            if |c.pending| + 1 == n then Chunks(c.complete + [c.pending + [m]], [])
            else Chunks(c.complete, c.pending + [m])
  {
    assert (ms + [m])[..|ms|] == ms;
  }

  /** Every complete chunk holds one message of each peer, and the pending one repeats no peer. */
  ghost predicate AreRounds(c: Chunks, peers: set<Peer>) {
    && (forall k :: 0 <= k < |c.complete| ==> OneOfEach(Sources(c.complete[k]), peers))
    && NoRepeat(Sources(c.pending), peers)
  }

  ghost predicate NoRepeat(srcs: seq<Peer>, peers: set<Peer>) {
    Members(srcs) <= peers && |Members(srcs)| == |srcs|
  }

  lemma NoRepeatSnoc(srcs: seq<Peer>, x: Peer, peers: set<Peer>)
    ensures NoRepeat(srcs + [x], peers) <==> NoRepeat(srcs, peers) && x in peers && x !in srcs
  {
    assert Members(srcs + [x]) == Members(srcs) + {x};
    DistinctCount(srcs, x);
    RemoveOne(Members(srcs) + {x}, x);
    if x in srcs {
      assert Members(srcs) + {x} == Members(srcs);
    } else {
      assert Members(srcs) + {x} - {x} == Members(srcs);
    }
  }

  lemma {:induction false} PendingShort(ms: seq<Message>, n: nat)
    requires n >= 1
    ensures |Accumulate(ms, n).pending| < n
    decreases |ms|
  {
    if ms != [] {
      PendingShort(ms[..|ms| - 1], n);
    }
  }

  /** If the chunks are rounds, so are those of every prefix. */
  lemma RoundsPrefix(ms: seq<Message>, m: Message, peers: set<Peer>)
    requires AreRounds(Accumulate(ms + [m], |peers|), peers)
    ensures AreRounds(Accumulate(ms, |peers|), peers)
    ensures m.source in peers && m.source !in Sources(Accumulate(ms, |peers|).pending)
  {
    AccumulateSnoc(ms, m, |peers|);
    ChunksPrefix(Accumulate(ms, |peers|), m, Accumulate(ms + [m], |peers|), peers);
  }

  /** If chunks are rounds once a message has been added, they were before. */
  lemma ChunksPrefix(c: Chunks, m: Message, c': Chunks, peers: set<Peer>)
    requires c' == Chunks(c.complete + [c.pending + [m]], []) || c' == Chunks(c.complete, c.pending + [m])
    requires AreRounds(c', peers)
    ensures AreRounds(c, peers)
    ensures m.source in peers && m.source !in Sources(c.pending)
  {
    SourcesSnoc(c.pending, m);
    NoRepeatSnoc(Sources(c.pending), m.source, peers);
    if c'.pending == [] {
      assert c'.complete[|c.complete|] == c.pending + [m];
    }
    forall k | 0 <= k < |c.complete| ensures OneOfEach(Sources(c.complete[k]), peers) {
      assert c'.complete[k] == c.complete[k];
    }
  }

  /** In rounds, every peer has contributed once per complete chunk, and once more if pending. */
  lemma {:induction false} RoundsCount(ms: seq<Message>, peers: set<Peer>)
    requires peers != {} && AreRounds(Accumulate(ms, |peers|), peers)
    ensures var c := Accumulate(ms, |peers|); InRound(Sources(ms), peers, |c.complete|, Sources(c.pending))
    decreases |ms|
  {
    PendingShort(ms, |peers|);
    if ms != [] {
      var init, m := ms[..|ms| - 1], ms[|ms| - 1];
      assert ms == init + [m];
      RoundsPrefix(init, m, peers);
      RoundsCount(init, peers);
      RoundsCountStep(init, m, peers);
    }
  }

  lemma RoundsCountStep(ms: seq<Message>, m: Message, peers: set<Peer>)
    requires peers != {} && m.source in peers && m.source !in Sources(Accumulate(ms, |peers|).pending)
    requires var c := Accumulate(ms, |peers|); InRound(Sources(ms), peers, |c.complete|, Sources(c.pending))
    ensures var c := Accumulate(ms + [m], |peers|);
            InRound(Sources(ms + [m]), peers, |c.complete|, Sources(c.pending))
    ensures Behind(Sources(ms), m.source, peers)
  {
    var c := Accumulate(ms, |peers|);
    AccumulateSnoc(ms, m, |peers|);
    SourcesSnoc(ms, m);
    SourcesSnoc(c.pending, m);
    NextInRound(Sources(ms), peers, |c.complete|, Sources(c.pending), m.source);
  }

  lemma LockstepSnoc(srcs: seq<Peer>, x: Peer, peers: set<Peer>)
    ensures Lockstep(srcs + [x], peers) <==> Lockstep(srcs, peers) && x in peers && Behind(srcs, x, peers)
  {
    var all := srcs + [x];
    assert all[..|srcs|] == srcs;
    forall i | 0 <= i < |srcs| ensures all[i] == srcs[i] && all[..i] == srcs[..i] { }
  }

  /** The chunks of a sequence of contributions are rounds exactly when the peers are in lockstep. */
  lemma {:induction false} RoundsIffLockstep(ms: seq<Message>, peers: set<Peer>)
    requires peers != {}
    ensures AreRounds(Accumulate(ms, |peers|), peers) <==> Lockstep(Sources(ms), peers)
    decreases |ms|
  {
    if ms == [] {
      assert Members([]) == {};
    } else {
      var init, m := ms[..|ms| - 1], ms[|ms| - 1];
      assert ms == init + [m];
      RoundsIffLockstep(init, peers);
      SourcesSnoc(init, m);
      LockstepSnoc(Sources(init), m.source, peers);
      if AreRounds(Accumulate(ms, |peers|), peers) {
        RoundsPrefix(init, m, peers);
        RoundsCount(init, peers);
        RoundsCountStep(init, m, peers);
      }
      if Lockstep(Sources(ms), peers) {
        RoundsCount(init, peers);
        RoundsExtend(init, m, peers);
      }
    }
  }

  lemma RoundsExtend(ms: seq<Message>, m: Message, peers: set<Peer>)
    requires peers != {} && AreRounds(Accumulate(ms, |peers|), peers)
    requires var c := Accumulate(ms, |peers|); InRound(Sources(ms), peers, |c.complete|, Sources(c.pending))
    requires m.source in peers && Behind(Sources(ms), m.source, peers)
    ensures AreRounds(Accumulate(ms + [m], |peers|), peers)
  {
    var c, c' := Accumulate(ms, |peers|), Accumulate(ms + [m], |peers|);
    AccumulateSnoc(ms, m, |peers|);
    SourcesSnoc(c.pending, m);
    NextInRound(Sources(ms), peers, |c.complete|, Sources(c.pending), m.source);
    NoRepeatSnoc(Sources(c.pending), m.source, peers);
    forall k | 0 <= k < |c'.complete| ensures OneOfEach(Sources(c'.complete[k]), peers) {
      if k < |c.complete| { assert c'.complete[k] == c.complete[k]; }
    }
    if |c'.pending| == 0 {
      assert Members([]) == {};
    }
  }

  // ---- which message of each peer a round holds

  /** The message is number `k` of its peer. */
  predicate IsNth(ms: seq<Message>, m: Message, k: nat) {
    k < |From(ms, m.source)| && From(ms, m.source)[k] == m
  }

  ghost predicate RoundByRound(ms: seq<Message>, c: Chunks) {
    && (forall k, j :: 0 <= k < |c.complete| && 0 <= j < |c.complete[k]| ==> IsNth(ms, c.complete[k][j], k))
    && (forall j :: 0 <= j < |c.pending| ==> IsNth(ms, c.pending[j], |c.complete|))
  }

  lemma {:induction false} CountIsFrom(ms: seq<Message>, p: Peer)
    ensures Count(Sources(ms), p) == |From(ms, p)|
    decreases |ms|
  {
    if ms != [] {
      var init, m := ms[..|ms| - 1], ms[|ms| - 1];
      CountIsFrom(init, p);
      CountSnoc(Sources(init), m.source, p);
    }
  }

  /** In rounds, chunk number `k` holds message number `k` of every peer. */
  lemma {:induction false} RoundsHoldNth(ms: seq<Message>, peers: set<Peer>)
    requires peers != {} && AreRounds(Accumulate(ms, |peers|), peers)
    ensures RoundByRound(ms, Accumulate(ms, |peers|))
    decreases |ms|
  {
    if ms != [] {
      var init, m := ms[..|ms| - 1], ms[|ms| - 1];
      assert ms == init + [m];
      RoundsPrefix(init, m, peers);
      RoundsHoldNth(init, peers);
      RoundsCount(init, peers);
      CountIsFrom(init, m.source);
      AccumulateSnoc(init, m, |peers|);
      RoundByRoundSnoc(init, m, Accumulate(init, |peers|), Accumulate(ms, |peers|));
    }
  }

  lemma RoundByRoundSnoc(ms: seq<Message>, m: Message, c: Chunks, c': Chunks)
    requires RoundByRound(ms, c) && |From(ms, m.source)| == |c.complete|
    requires c' == Chunks(c.complete + [c.pending + [m]], []) || c' == Chunks(c.complete, c.pending + [m])
    ensures RoundByRound(ms + [m], c')
  {
    hide From;
    forall x: Message, k: nat | IsNth(ms, x, k) ensures IsNth(ms + [m], x, k) { FromSnoc(ms, m, x.source); }
    FromSnoc(ms, m, m.source);
    assert IsNth(ms + [m], m, |c.complete|);
  }

  ghost predicate SameMembers(a: seq<Message>, b: seq<Message>) {
    forall m :: m in a <==> m in b
  }

  /** If two sequences take the messages of every peer in the same order, their rounds hold the same
      messages. */
  lemma SameRounds(a: seq<Message>, b: seq<Message>, peers: set<Peer>, scripts: map<Peer, seq<Message>>, k: nat)
    requires peers != {} && AreRounds(Accumulate(a, |peers|), peers) && AreRounds(Accumulate(b, |peers|), peers)
    requires peers <= scripts.Keys
    requires forall p :: p in peers ==> From(a, p) <= scripts[p] && From(b, p) <= scripts[p]
    requires k < |Accumulate(a, |peers|).complete| && k < |Accumulate(b, |peers|).complete|
    ensures SameMembers(Accumulate(a, |peers|).complete[k], Accumulate(b, |peers|).complete[k])
  {
    RoundsHoldNth(a, peers);
    RoundsHoldNth(b, peers);
    var ca, cb := Accumulate(a, |peers|).complete[k], Accumulate(b, |peers|).complete[k];
    forall m ensures m in ca <==> m in cb {
      if m in ca { RoundContains(a, b, peers, scripts, k, m); }
      if m in cb { RoundContains(b, a, peers, scripts, k, m); }
    }
  }

  lemma RoundContains(a: seq<Message>, b: seq<Message>, peers: set<Peer>, scripts: map<Peer, seq<Message>>, k: nat, m: Message)
    requires AreRounds(Accumulate(a, |peers|), peers) && AreRounds(Accumulate(b, |peers|), peers)
    requires RoundByRound(a, Accumulate(a, |peers|)) && RoundByRound(b, Accumulate(b, |peers|))
    requires peers <= scripts.Keys
    requires forall p :: p in peers ==> From(a, p) <= scripts[p] && From(b, p) <= scripts[p]
    requires k < |Accumulate(a, |peers|).complete| && k < |Accumulate(b, |peers|).complete|
    requires m in Accumulate(a, |peers|).complete[k]
    ensures m in Accumulate(b, |peers|).complete[k]
  {
    hide Accumulate, From;
    var ca, cb := Accumulate(a, |peers|).complete[k], Accumulate(b, |peers|).complete[k];
    var i :| 0 <= i < |ca| && ca[i] == m;
    assert Sources(ca)[i] in Members(Sources(ca));
    assert m.source in Members(Sources(cb));
    var j :| 0 <= j < |cb| && Sources(cb)[j] == m.source;
    assert IsNth(a, ca[i], k) && IsNth(b, cb[j], k);
  }

  lemma {:induction false} AccumulateSize(ms: seq<Message>, n: nat)
    requires n >= 1
    ensures |Accumulate(ms, n).complete| == |ms| / n && |Accumulate(ms, n).pending| == |ms| % n
    decreases |ms|
  {
    if ms == [] {
      DivUnique(0, n, 0, 0);
    } else {
      var c := Accumulate(ms[..|ms| - 1], n);
      AccumulateSize(ms[..|ms| - 1], n);
      PendingShort(ms[..|ms| - 1], n);
      DivStep(|ms| - 1, n);
    }
  }

  lemma DivStep(x: nat, n: nat)
    requires n >= 1
    ensures (x + 1) / n == x / n + (if x % n + 1 == n then 1 else 0)
    ensures (x + 1) % n == if x % n + 1 == n then 0 else x % n + 1
  {
    var q, r := x / n, x % n;
    assert x == n * q + r;
    if r + 1 == n {
      assert n * (q + 1) == n * q + n;
      DivUnique(x + 1, n, q + 1, 0);
    } else {
      DivUnique(x + 1, n, q, r + 1);
    }
  }
}
