/** The trigger that issues an event for every configured value up to the last one seen. */
module Trigger {
  import opened Wrappers

  /** Positions in the configured values; `|values|` is the end. Events are positions, in the order in
      which they were issued. */
  datatype State = State(lastSeen: nat, issued: nat, events: seq<nat>)

  function Initial(n: nat): State {
    State(n, n, [])
  }

  /** The first position of the value, or the end. */
  function Find(values: seq<string>, v: string): (p: nat)
    ensures p <= |values|
    ensures p < |values| ==> values[p] == v
    ensures forall q :: 0 <= q < p ==> values[q] != v
    decreases |values|
  {
    if values == [] || values[0] == v then 0 else 1 + Find(values[1..], v)
  }

  function Range(lo: nat, hi: nat): (r: seq<nat>)
    ensures |r| == (if lo <= hi then hi - lo else 0) && forall i :: 0 <= i < |r| ==> r[i] == lo + i
  {
    if lo < hi then Range(lo, hi - 1) + [hi - 1] else []
  }

  lemma RangeSnoc(lo: nat, hi: nat)
    requires lo <= hi
    ensures Range(lo, hi + 1) == Range(lo, hi) + [hi]
  {
  }

  // ---- one message

  /** The first event is issued when something was seen and nothing issued yet. */
  function Begun(n: nat, s: State): State {
    if s.issued == n && s.lastSeen != n then s.(issued := 0, events := s.events + [0]) else s
  }

  /** Catching up raises when the last value seen is behind what was issued already. */
  predicate CanUpdate(n: nat, s: State) {
    Begun(n, s).issued == s.lastSeen || Begun(n, s).issued < s.lastSeen < n
  }

  function Update(n: nat, s: State): State
    requires s.lastSeen <= n
  {
    var b := Begun(n, s);
    if CanUpdate(n, s) then State(s.lastSeen, s.lastSeen, b.events + Range(b.issued + 1, s.lastSeen + 1))
    else State(s.lastSeen, n, b.events + Range(b.issued + 1, n))
  }

  function Seen(n: nat, s: State, now: nat): State {
    if s.lastSeen == n && now != n then s.(lastSeen := now) else s
  }

  predicate CanHandle(n: nat, s: State, now: nat) {
    var seen := Seen(n, s, now);
    seen.lastSeen == now || CanUpdate(n, seen)
  }

  function Handle(n: nat, s: State, now: nat): State
    requires s.lastSeen <= n && now <= n
  {
    var seen := Seen(n, s, now);
    if seen.lastSeen == now then seen
    else
      var u := Update(n, seen);
      if CanUpdate(n, seen) && now != n then u.(lastSeen := now) else u
  }

  class MetadataChangeTrigger {
    const values: seq<string>
    var lastSeen: nat
    var issued: nat
    var events: seq<nat>

    function Contents(): State
      reads this
    {
      State(lastSeen, issued, events)
    }

    ghost predicate Valid()
      reads this
    {
      lastSeen <= |values| && issued <= |values|
    }

    constructor (values: seq<string>)
      ensures Valid() && this.values == values && Contents() == Initial(|values|)
    {
      this.values := values;
      lastSeen, issued, events := |values|, |values|, [];
    }

    method IssueEvent() returns (o: Outcome)
      requires Valid()
      modifies this`events
      ensures o.Done? <==> issued != |values|
      ensures events == old(events) + if o.Done? then [issued] else []
    {
      if issued == |values| {
        return Raised("assertion failed: past the last value");
      }
      events := events + [issued];
      o := Done;
    }

    method UpdateEventsIssued() returns (o: Outcome)
      requires Valid()
      modifies this
      ensures Valid() && (o.Done? <==> CanUpdate(|values|, old(Contents())))
      ensures Contents() == Update(|values|, old(Contents()))
    {
      hide Range;
      ghost var n, b := |values|, Begun(|values|, Contents());
      if issued == |values| && lastSeen != |values| {
        issued := 0;
        o := IssueEvent();
      }
      ghost var start := issued;
      while issued != lastSeen
        invariant Valid() && lastSeen == old(lastSeen) && start <= issued
        invariant start <= lastSeen ==> issued <= lastSeen
        invariant CanUpdate(|values|, old(Contents())) <==> start == lastSeen || start < lastSeen < |values|
        invariant events == b.events + Range(start + 1, issued + 1)
        invariant issued < |values| || issued == start
        decreases |values| - issued
      {
        issued := issued + 1;
        RangeSnoc(start + 1, issued);
        o := IssueEvent();
        if o.Raised? {
          return;
        }
      }
      o := Done;
    }

    method Trigger(current: string) returns (o: Outcome)
      requires Valid()
      modifies this
      ensures Valid() && (o.Done? <==> CanHandle(|values|, old(Contents()), Find(values, current)))
      ensures Contents() == Handle(|values|, old(Contents()), Find(values, current))
    {
      var now := Find(values, current);
      if lastSeen == |values| && now != |values| {
        lastSeen := now;
      }
      if lastSeen == now {
        return Done;
      }
      o := UpdateEventsIssued();
      if o.Raised? {
        return;
      }
      if now != |values| {
        lastSeen := now;
      }
    }
  }

  // ---- whole runs

  /** The positions of the values of a sequence of messages; `n` stands for a value not listed. */
  function Positions(values: seq<string>, messages: seq<string>): (ps: seq<nat>)
    ensures |ps| == |messages| && forall i :: 0 <= i < |ps| ==> ps[i] == Find(values, messages[i]) <= |values|
  {
    seq(|messages|, i requires 0 <= i < |messages| => Find(values, messages[i]))
  }

  predicate Bounded(n: nat, ps: seq<nat>) {
    forall i :: 0 <= i < |ps| ==> ps[i] <= n
  }

  /** The state after the messages, none of which raised. */
  function After(n: nat, ps: seq<nat>): (s: State)
    requires Bounded(n, ps)
    ensures s.lastSeen <= n
  {
    if ps == [] then Initial(n) else Handle(n, After(n, ps[..|ps| - 1]), ps[|ps| - 1])
  }

  predicate Runs(n: nat, ps: seq<nat>)
    requires Bounded(n, ps)
  {
    ps == [] || (Runs(n, ps[..|ps| - 1]) && CanHandle(n, After(n, ps[..|ps| - 1]), ps[|ps| - 1]))
  }

  /** No message raises, and neither does the destructor's update. */
  predicate Completes(n: nat, ps: seq<nat>)
    requires Bounded(n, ps)
  {
    Runs(n, ps) && CanUpdate(n, After(n, ps))
  }

  /** The listed values appear in the configured order, repetitions allowed. */
  predicate InOrder(n: nat, ps: seq<nat>) {
    forall i, j :: 0 <= i < j < |ps| && ps[i] < n && ps[j] < n ==> ps[i] <= ps[j]
  }

  /** The last listed position, or `n`. */
  function Last(n: nat, ps: seq<nat>): nat {
    if ps == [] then n else if ps[|ps| - 1] < n then ps[|ps| - 1] else Last(n, ps[..|ps| - 1])
  }

  /** The events are those of the values up to `issued`, each once and in order, and do not go past
      the last value seen. */
  predicate UpToDate(n: nat, s: State) {
    if s.issued == n then s.events == []
    else s.issued <= s.lastSeen < n && s.events == Range(0, s.issued + 1)
  }

  /** An event was issued for a value after the last one seen. */
  predicate Behind(n: nat, s: State) {
    s.lastSeen < s.issued < n
  }

  /** The destructor raises, and so does every message with another value than the last one seen. */
  ghost predicate Stuck(n: nat, s: State) {
    !CanUpdate(n, s) && forall now :: 0 <= now <= n ==> (CanHandle(n, s, now) <==> now == s.lastSeen)
  }

  lemma RangeJoin(lo: nat, mid: nat, hi: nat)
    requires lo <= mid <= hi
    ensures Range(lo, hi) == Range(lo, mid) + Range(mid, hi)
  {
  }

  lemma UpdateIsUpToDate(n: nat, s: State)
    requires UpToDate(n, s) && s.lastSeen <= n
    ensures CanUpdate(n, s)
    ensures var u := Update(n, s); u.events == (if s.lastSeen < n then Range(0, s.lastSeen + 1) else [])
    ensures var u := Update(n, s); UpToDate(n, u) && u.issued == u.lastSeen == s.lastSeen
  {
    if s.issued == n && s.lastSeen != n {
      assert Range(0, 1) == [0];
      RangeJoin(0, 1, s.lastSeen + 1);
    } else if s.issued < n {
      RangeJoin(0, s.issued + 1, s.lastSeen + 1);
    } else {
      assert Range(n + 1, n + 1) == [];
    }
  }

  lemma {:induction false} LastIsGreatest(n: nat, ps: seq<nat>)
    requires Bounded(n, ps) && InOrder(n, ps)
    ensures Last(n, ps) <= n
    ensures forall i :: 0 <= i < |ps| && ps[i] < n ==> ps[i] <= Last(n, ps) < n
    ensures Last(n, ps) < n ==> Last(n, ps) in ps
    decreases |ps|
  {
    if ps != [] {
      LastIsGreatest(n, ps[..|ps| - 1]);
    }
  }

  lemma InOrderSnoc(n: nat, init: seq<nat>, p: nat)
    requires Bounded(n, init) && p <= n
    ensures InOrder(n, init + [p]) <==> InOrder(n, init) && (p < n && Last(n, init) < n ==> Last(n, init) <= p)
  {
    var ps := init + [p];
    assert forall i :: 0 <= i < |init| ==> ps[i] == init[i];
    if InOrder(n, ps) {
      forall i, j | 0 <= i < j < |init| && init[i] < n && init[j] < n ensures init[i] <= init[j] {
        assert ps[i] == init[i] && ps[j] == init[j];
      }
    }
    if InOrder(n, init) {
      LastIsGreatest(n, init);
      if InOrder(n, ps) && Last(n, init) < n {
        var i :| 0 <= i < |init| && init[i] == Last(n, init);
        assert ps[i] == init[i] && ps[|init|] == p;
      }
    }
  }

  /** One message on an up-to-date state. */
  lemma HandleUpToDate(n: nat, s: State, now: nat)
    requires UpToDate(n, s) && s.lastSeen <= n && now <= n
    ensures CanHandle(n, s, now)
    ensures var h := Handle(n, s, now);
            && h.lastSeen == (if now < n then now else s.lastSeen)
            && if now < n && s.lastSeen < n && now < s.lastSeen then Behind(n, h) else UpToDate(n, h)
    ensures Handle(n, s, now).events ==
            if s.lastSeen < n && now != s.lastSeen then Range(0, s.lastSeen + 1) else s.events
  {
    var seen := Seen(n, s, now);
    if seen.lastSeen != now {
      UpdateIsUpToDate(n, seen);
    }
  }

  /** After messages that raised nothing, the events are up to date if the values came in order, and
      otherwise every further change, and the destructor, raises. */
  lemma {:induction false} RunsAre(n: nat, ps: seq<nat>)
    requires Bounded(n, ps)
    ensures InOrder(n, ps) ==> Runs(n, ps) && UpToDate(n, After(n, ps)) && After(n, ps).lastSeen == Last(n, ps)
    ensures !InOrder(n, ps) && Runs(n, ps) ==> Behind(n, After(n, ps)) && Stuck(n, After(n, ps))
    decreases |ps|
  {
    if ps != [] {
      var init, p := ps[..|ps| - 1], ps[|ps| - 1];
      assert ps == init + [p];
      RunsAre(n, init);
      InOrderSnoc(n, init, p);
      if InOrder(n, init) {
        HandleUpToDate(n, After(n, init), p);
      }
    }
  }

  /** A run completes exactly when the listed values appear in the configured order. It has then
      issued the events of all values up to the last one seen, each once and in order. */
  lemma CompletesInOrder(values: seq<string>, messages: seq<string>)
    ensures var n, ps := |values|, Positions(values, messages);
            && Bounded(n, ps)
            && (Completes(n, ps) <==> InOrder(n, ps))
            && (InOrder(n, ps) ==>
                  Update(n, After(n, ps)).events == if Last(n, ps) < n then Range(0, Last(n, ps) + 1) else [])
  {
    var n, ps := |values|, Positions(values, messages);
    RunsAre(n, ps);
    if InOrder(n, ps) {
      UpdateIsUpToDate(n, After(n, ps));
    }
  }

  lemma OrderedPrefix(n: nat, ps: seq<nat>, k: nat)
    requires k <= |ps| && InOrder(n, ps)
    ensures InOrder(n, ps[..k])
  {
    forall i, j | 0 <= i < j < k && ps[..k][i] < n && ps[..k][j] < n ensures ps[..k][i] <= ps[..k][j] {
      assert ps[i] == ps[..k][i] && ps[j] == ps[..k][j];
    }
  }

  lemma AfterOneMore(n: nat, ps: seq<nat>, p: nat)
    requires Bounded(n, ps) && InOrder(n, ps) && p <= n
    ensures Bounded(n, ps + [p])
    ensures After(n, ps + [p]).events ==
            if Last(n, ps) < n && p != Last(n, ps) then Range(0, Last(n, ps) + 1) else After(n, ps).events
  {
    RunsAre(n, ps);
    HandleUpToDate(n, After(n, ps), p);
    hide UpToDate, Runs, Stuck, Handle, CanHandle, InOrder, Range;
    assert (ps + [p])[..|ps|] == ps && (ps + [p])[|ps|] == p;
  }

  /** While values come in order, every message with another value than the last one listed, be it
      listed itself or not, issues the events up to that last one at once. Other messages issue none. */
  lemma IssuedAtOnce(values: seq<string>, messages: seq<string>, k: nat)
    requires k < |messages| && InOrder(|values|, Positions(values, messages))
    ensures var n, ps := |values|, Positions(values, messages);
            && Bounded(n, ps[..k]) && Bounded(n, ps[..k + 1])
            && var before, after, last := After(n, ps[..k]).events, After(n, ps[..k + 1]).events, Last(n, ps[..k]);
               after == if last < n && ps[k] != last then Range(0, last + 1) else before
  {
    hide InOrder, After, Last, Range;
    var n, ps := |values|, Positions(values, messages);
    OrderedPrefix(n, ps, k);
    AfterOneMore(n, ps[..k], ps[k]);
    assert ps[..k + 1] == ps[..k] + [ps[k]];
  }

  /** While values come in order, the events issued so far are those of a prefix of the values that
      does not go past the last value seen. */
  lemma PrefixSoFar(values: seq<string>, messages: seq<string>, k: nat)
    requires k <= |messages| && InOrder(|values|, Positions(values, messages))
    ensures var n, ps := |values|, Positions(values, messages)[..k];
            && Bounded(n, ps) && Runs(n, ps)
            && var s := After(n, ps);
               exists m: nat :: s.events == Range(0, m) && m <= n && (s.lastSeen < n ==> m <= s.lastSeen + 1)
  {
    var n := |values|;
    var ps := Positions(values, messages)[..k];
    OrderedPrefix(n, Positions(values, messages), k);
    RunsAre(n, ps);
    var s := After(n, ps);
    if s.issued == n {
      assert s.events == Range(0, 0);
    } else {
      assert s.events == Range(0, s.issued + 1);
    }
  }
}
