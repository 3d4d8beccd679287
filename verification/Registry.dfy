/** Histories of the registry: what the consistency flag stands for once more peers have registered. */
module Registry {
  import opened Domains
  import opened Messages
  import M = Mappings
  import P = Partition
  import S = Sets

  datatype Operation = Register(m: Message) | Check(parts: seq<M.LocalPart>)

  ghost predicate Usable(op: Operation) {
    match op
    case Register(m) => m.body.DomainPart? && forall d :: d in M.Decode(m) ==> WellFormed(d)
    case Check(ls) => ls != []
  }

  /** The state after an operation, whether it raises or not. */
  ghost function After(s: M.State, op: Operation): (s': M.State)
    requires M.WellFormedState(s) && Usable(op)
    ensures M.WellFormedState(s')
  {
    match op
    case Register(m) => RegisterKeeps(s, m); M.AddDomain(s, m)
    case Check(ls) => M.Checked(s, ls)
  }

  lemma RegisterKeeps(s: M.State, m: Message)
    requires M.WellFormedState(s) && Usable(Register(m))
    ensures M.WellFormedState(M.AddDomain(s, m))
  {
    hide WellFormed;
    var dm := M.Lookup(s, m.md.name);
    assert M.WellFormedMap(dm);
    if m.source !in dm.parts && M.Decode(m) != [] {
      assert M.Decode(m)[0] in M.Decode(m);
    }
  }

  ghost function Run(s: M.State, ops: seq<Operation>): (s': M.State)
    requires M.WellFormedState(s) && forall i :: 0 <= i < |ops| ==> Usable(ops[i])
    ensures M.WellFormedState(s')
  {
    if ops == [] then s else After(Run(s, ops[..|ops| - 1]), ops[|ops| - 1])
  }

  /** The flag of the map is set, and it holds at least these parts. */
  predicate Flagged(s: M.State, name: string, parts: map<Peer, Domain>) {
    && name in s && s[name].consistent
    && forall p :: p in parts ==> p in s[name].parts && s[name].parts[p] == parts[p]
  }

  lemma AfterKeeps(s: M.State, op: Operation, name: string, parts: map<Peer, Domain>)
    requires M.WellFormedState(s) && Usable(op) && Flagged(s, name, parts)
    ensures Flagged(After(s, op), name, parts)
  {
    hide M.WellFormedState, M.Consistent, M.Decode;
  }

  /** No operation clears a flag or removes a part. */
  lemma {:induction false} RunKeeps(s: M.State, ops: seq<Operation>, name: string, parts: map<Peer, Domain>)
    requires M.WellFormedState(s) && forall i :: 0 <= i < |ops| ==> Usable(ops[i])
    requires Flagged(s, name, parts)
    ensures Flagged(Run(s, ops), name, parts)
    decreases |ops|
  {
    hide M.WellFormedState, Flagged, After, Usable;
    if ops != [] {
      RunKeeps(s, ops[..|ops| - 1], name, parts);
      AfterKeeps(Run(s, ops[..|ops| - 1]), ops[|ops| - 1], name, parts);
    }
  }

  // ---- partitions of the grid by the parts of a map

  /** Value `i` of peer `p`, and no other value of any peer, is written to the cell. */
  ghost predicate Alone(parts: map<Peer, Domain>, p: Peer, i: int, c: int)
    requires M.Sound(parts) && p in parts
  {
    Writes(parts[p], i, c) && forall q, j :: q in parts && Writes(parts[q], j, c) ==> q == p && j == i
  }

  ghost predicate Owned(parts: map<Peer, Domain>, c: int)
    requires M.Sound(parts)
  {
    exists p, i :: p in parts && Alone(parts, p, i, c)
  }

  ghost predicate Partitions(parts: map<Peer, Domain>, size: nat)
    requires M.Sound(parts)
  {
    forall c :: 0 <= c < size ==> Owned(parts, c)
  }

  /** The domain writes a cell of the grid. */
  ghost predicate WritesBelow(d: Domain, size: nat)
    requires WellFormed(d)
  {
    exists i, c :: 0 <= c < size && Writes(d, i, c)
  }

  /** All peers of the larger map that the smaller one lacks write no cell of the grid. */
  ghost predicate AddsNothing(parts: map<Peer, Domain>, more: map<Peer, Domain>, size: nat)
    requires M.Sound(more)
  {
    forall q :: q in more && q !in parts ==> !WritesBelow(more[q], size)
  }

  /** More parts partition the grid like those there were exactly when they write nothing. */
  lemma MorePartition(parts: map<Peer, Domain>, more: map<Peer, Domain>, size: nat)
    requires M.Sound(parts) && M.Sound(more) && Partitions(parts, size)
    requires forall p :: p in parts ==> p in more && more[p] == parts[p]
    ensures Partitions(more, size) <==> AddsNothing(parts, more, size)
  {
    hide Writes, WellFormed;
    if Partitions(more, size) {
      forall q | q in more && q !in parts ensures !WritesBelow(more[q], size) {
        forall i, c | 0 <= c < size ensures !Writes(more[q], i, c) {
          assert Owned(parts, c) && Owned(more, c);
          var p, j :| p in parts && Alone(parts, p, j, c);
          var p', j' :| p' in more && Alone(more, p', j', c);
          assert Writes(more[p], j, c);
        }
      }
    }
    if AddsNothing(parts, more, size) {
      forall c | 0 <= c < size ensures Owned(more, c) {
        assert Owned(parts, c);
        var p, i :| p in parts && Alone(parts, p, i, c);
        assert Alone(more, p, i, c);
      }
    }
  }

  lemma OwnedIsAlone(s: M.State, name: string, ls: seq<M.LocalPart>, c: int)
    requires M.WellFormedState(s) && M.OnePartEach(s, name, ls) && P.OwnedOnce(M.DomainsOf(s, ls), c)
    ensures Owned(s[name].parts, c)
  {
    hide Writes, WellFormed;
    var ds, parts := M.DomainsOf(s, ls), s[name].parts;
    var k, i :| 0 <= k < |ds| && Writes(ds[k], i, c) && P.OnlyWriter(ds, k, i, c);
    var p := ls[k].source;
    assert M.Found(s, ls[k]) && ds[k] == parts[p];
    forall q, j | q in parts && Writes(parts[q], j, c) ensures q == p && j == i {
      assert M.Lists(ls, |ls|, q);
      var m :| 0 <= m < |ls| && ls[m].source == q;
      assert ds[m] == parts[q];
    }
    assert Alone(parts, p, i, c);
  }

  /** What a first successful check stands for: the map was complete by size for the whole grid, and
      one part of each registered peer passed the index count. */
  ghost predicate FirstCheck(s: M.State, name: string, ls: seq<M.LocalPart>)
    requires M.WellFormedState(s)
  {
    && ls != [] && M.OnePartEach(s, name, ls) && M.Found(s, ls[0])
    && P.SameGrid(M.DomainsOf(s, ls), ls[|ls| - 1].globalSize)
    && M.Total(s[name].parts) <= INT_MAX && !s[name].consistent && M.Complete(s[name])
    && PartialSize(s[name].parts[S.First(s[name].parts.Keys)]) == ls[|ls| - 1].globalSize
    && M.Consistent(s, ls)
  }

  lemma OwnedPartitions(s: M.State, name: string, ls: seq<M.LocalPart>, size: nat)
    requires M.WellFormedState(s) && M.OnePartEach(s, name, ls)
    requires forall c :: 0 <= c < size ==> P.OwnedOnce(M.DomainsOf(s, ls), c)
    ensures name in s && Partitions(s[name].parts, size)
  {
    hide P.OwnedOnce, Owned, WellFormed, M.DomainsOf, M.AllFound;
    assert M.WellFormedMap(s[name]);
    forall c | 0 <= c < size ensures Owned(s[name].parts, c) {
      OwnedIsAlone(s, name, ls, c);
    }
  }

  lemma FirstCheckPartitions(s: M.State, name: string, ls: seq<M.LocalPart>)
    requires M.WellFormedState(s) && FirstCheck(s, name, ls)
    ensures name in s && Partitions(s[name].parts, ls[|ls| - 1].globalSize)
  {
    hide M.Complete, M.Consistent, M.Total, PartialSize, P.SameGrid, P.OwnedOnce, M.Found, M.OnePartEach, M.DomainsOf,
         WellFormed, Partitions;
    M.CompleteAndConsistent(s, name, ls);
    OwnedPartitions(s, name, ls, ls[|ls| - 1].globalSize);
  }

  lemma FirstCheckFlags(s: M.State, name: string, ls: seq<M.LocalPart>)
    requires M.WellFormedState(s) && FirstCheck(s, name, ls)
    ensures name in s && Flagged(M.Checked(s, ls), name, s[name].parts) && ls[0].source in s[name].parts
  {
    hide M.Complete, M.Consistent, M.Total, PartialSize, P.SameGrid, M.DomainsOf, WellFormed;
  }

  /** After a first successful check and any operations, the flag is set and the map complete,
      whatever has registered since; but the parts still partition the grid exactly while no peer
      that writes a cell of it has registered. */
  lemma FlagMeansPartition(s: M.State, name: string, ls: seq<M.LocalPart>, ops: seq<Operation>)
    requires M.WellFormedState(s) && FirstCheck(s, name, ls) && forall i :: 0 <= i < |ops| ==> Usable(ops[i])
    ensures var t, size := Run(M.Checked(s, ls), ops), ls[|ls| - 1].globalSize;
            && name in s && name in t && t[name].consistent && t[name].parts != map[] && M.Complete(t[name])
            && M.Sound(t[name].parts)
            && (Partitions(t[name].parts, size) <==> AddsNothing(s[name].parts, t[name].parts, size))
  {
    FirstCheckPartitions(s, name, ls);
    FirstCheckFlags(s, name, ls);
    hide WellFormed, Partitions, AddsNothing, FirstCheck, Run, M.Checked, Usable;
    RunKeeps(M.Checked(s, ls), ops, name, s[name].parts);
    var t := Run(M.Checked(s, ls), ops);
    assert M.WellFormedMap(t[name]) && M.WellFormedMap(s[name]);
    assert ls[0].source in t[name].parts;
    MorePartition(s[name].parts, t[name].parts, ls[|ls| - 1].globalSize);
  }

  ghost predicate AllWrite(parts: map<Peer, Domain>, size: nat) {
    M.Sound(parts) && forall q :: q in parts ==> WritesBelow(parts[q], size)
  }

  /** Where every domain writes a cell of the grid, that is exactly while no peer has registered. */
  lemma PartitionWhileNoneAdded(s: M.State, name: string, ls: seq<M.LocalPart>, ops: seq<Operation>)
    requires M.WellFormedState(s) && FirstCheck(s, name, ls) && forall i :: 0 <= i < |ops| ==> Usable(ops[i])
    requires var t := Run(M.Checked(s, ls), ops); name in t ==> AllWrite(t[name].parts, ls[|ls| - 1].globalSize)
    ensures var t := Run(M.Checked(s, ls), ops);
            && name in s && name in t && M.Sound(t[name].parts)
            && (Partitions(t[name].parts, ls[|ls| - 1].globalSize) <==> t[name].parts == s[name].parts)
  {
    assert ls != [];
    hide WritesBelow, WellFormed, Partitions, FirstCheck, Run, M.Checked, Usable, AddsNothing, M.Complete, AllWrite;
    FlagMeansPartition(s, name, ls, ops);
    assert M.WellFormedMap(s[name]);
    FirstCheckFlags(s, name, ls);
    RunKeeps(M.Checked(s, ls), ops, name, s[name].parts);
    NoneAdded(s[name].parts, Run(M.Checked(s, ls), ops)[name].parts, ls[|ls| - 1].globalSize);
  }

  lemma NoneAdded(parts: map<Peer, Domain>, more: map<Peer, Domain>, size: nat)
    requires AllWrite(more, size) && forall p :: p in parts ==> p in more && more[p] == parts[p]
    ensures AddsNothing(parts, more, size) <==> more == parts
  {
    hide WritesBelow, WellFormed;
    if AddsNothing(parts, more, size) {
      assert forall q :: q in more ==> q in parts;
      assert more.Keys == parts.Keys;
    }
  }
}
