/** The dispatcher: it drains the queue into the domain registry and the mask aggregator. */
module Dispatcher {
  import opened Wrappers
  import opened Messages
  import opened Domains
  import opened MaskFormat
  import A = MaskAssembly
  import M = Mappings
  import P = Parametrization

  /** A global mask that was built: its field, its parts in order of arrival, and its cells. */
  datatype Build = Build(md: Metadata, parts: seq<Message>, cells: seq<bool>)

  datatype Server = Server(maps: M.State, masks: A.State, params: P.Data, built: seq<Build>)

  const IDLE := Server(map[], A.EMPTY, map[], [])

  ghost predicate Sane(s: Server) {
    A.Usable(s.maps) && A.Stored(s.masks)
  }

  /** What the source takes for granted about a message: the definition of a domain is usable, and a
      mask payload is well formed and belongs to a non-empty field. */
  ghost predicate Proper(m: Message) {
    && (m.body.DomainPart? ==> forall d :: d in M.Decode(m) ==> WellFormed(d))
    && (m.body.MaskPart? ==> A.IsPart(m, m.md) && 1 <= m.md.globalSize < MAX_SIZE)
  }

  /** The message is handled without an exception. */
  ghost predicate CanHandle(s: Server, m: Message)
    requires Sane(s) && Proper(m)
  {
    && (m.body.DomainPart? ==> m.source in M.Lookup(s.maps, m.md.name).parts || M.Decode(m) != [])
    && (m.body.MaskPart? ==> !A.Raises(s.maps, s.masks, m))
    && (m.body.Parametrization? ==>
          !P.Malformed(m.body.update) && P.Succeeds(s.params, P.Entries(m.body.update)))
    && (m.body.Other? ==> m.body.accepted)
  }

  /** Domains are registered, masks aggregated and parameters stored; the rest changes none of them. */
  ghost function Handle(s: Server, m: Message): (s': Server)
    requires Sane(s) && Proper(m) && CanHandle(s, m)
    ensures Sane(s')
  {
    match m.body
    case DomainPart(_) => DomainStaysSane(s.maps, m); s.(maps := M.AddDomain(s.maps, m))
    case MaskPart(_) =>
      A.StoredWith(s.masks, m);
      s.(masks := A.AddMask(s.maps, s.masks, m),
         built := s.built +
           if A.Builds(s.maps, s.masks, m) then
             [Build(m.md, A.Pending(s.masks, m.md) + [m],
                    A.Assembled(s.maps[m.md.domain], m.md, A.Pending(s.masks, m.md) + [m]))]
           else [])
    case Parametrization(u) => s.(params := P.WriteAll(s.params, P.Entries(u)))
    case _ => s
  }

  lemma DomainStaysSane(maps: M.State, m: Message)
    requires A.Usable(maps) && m.body.DomainPart?
    requires forall d :: d in M.Decode(m) ==> WellFormed(d)
    requires m.source in M.Lookup(maps, m.md.name).parts || M.Decode(m) != []
    ensures A.Usable(M.AddDomain(maps, m))
  {
    var maps' := M.AddDomain(maps, m);
    if m.source !in M.Lookup(maps, m.md.name).parts {
      var d := M.Decode(m)[0];
      assert d in M.Decode(m);
      var dm := M.Lookup(maps, m.md.name);
      assert M.WellFormedMap(dm);
      assert m.source in maps'[m.md.name].parts;
    }
  }

  ghost predicate CanServe(h: seq<Message>)
    decreases |h|, 0
  {
    h == [] ||
    (CanServe(h[..|h| - 1]) && Proper(h[|h| - 1]) && CanHandle(Serve(h[..|h| - 1]), h[|h| - 1]))
  }

  /** The server after the messages of `h` have been handled in order. */
  ghost function Serve(h: seq<Message>): (s: Server)
    requires CanServe(h)
    ensures Sane(s)
    decreases |h|, 1
  {
    if h == [] then IDLE else Handle(Serve(h[..|h| - 1]), h[|h| - 1])
  }

  lemma ServeSnoc(h: seq<Message>, m: Message)
    requires CanServe(h) && Proper(m) && CanHandle(Serve(h), m)
    ensures CanServe(h + [m]) && Serve(h + [m]) == Handle(Serve(h), m)
  {
    assert (h + [m])[..|h|] == h;
  }

  class Dispatcher {
    const mappings: M.Mappings
    const masks: A.MaskStore
    const parametrization: P.Parametrization
    ghost var built: seq<Build>

    ghost function Contents(): Server
      reads this, mappings, masks, parametrization
    {
      Server(mappings.mappings, masks.Contents(), parametrization.data, built)
    }

    constructor ()
      ensures Contents() == IDLE && fresh(mappings) && fresh(masks) && fresh(parametrization)
    {
      mappings := new M.Mappings();
      masks := new A.MaskStore();
      parametrization := new P.Parametrization();
      built := [];
    }

    method Process(m: Message) returns (o: Outcome)
      requires Sane(Contents()) && Proper(m)
      modifies this, mappings, masks, parametrization
      ensures o.Done? <==> old(CanHandle(Contents(), m))
      ensures o.Done? ==> Contents() == old(Handle(Contents(), m))
    {
      hide A.Raises, A.Builds, A.Assembled, A.Stored, A.Usable, A.IsPart, P.Succeeds, P.WriteAll, P.Entries, P.Malformed, M.Decode,
           M.AddDomain, WellFormed;
      match m.body {
        case DomainPart(_) =>
          o := mappings.Add(m);
        case MaskPart(_) =>
          ghost var s := Contents();
          o := masks.Add(m, mappings);
          if o.Done? {
            built := Handle(s, m).built;
          }
        case Parametrization(u) =>
          o := parametrization.UpdateMessage(u);
        case Other(_, accepted) =>
          // the plans
          o := if accepted then Done else Raised("a plan");
        case _ =>
          // Synchronization is forwarded to the transport
          o := Done;
      }
    }

    /** Handles messages in queue order until the queue is closed and empty, or an exception ends it. */
    method Dispatch(queue: seq<Message>) returns (handled: nat, o: Outcome)
      requires Contents() == IDLE
      requires forall i :: 0 <= i < |queue| ==> Proper(queue[i])
      modifies this, mappings, masks, parametrization
      ensures handled <= |queue| && CanServe(queue[..handled])
      ensures o.Done? ==> handled == |queue| && Contents() == Serve(queue[..handled])
      ensures o.Raised? ==> handled < |queue| && !CanServe(queue[..handled + 1])
    {
      handled := 0;
      while handled < |queue|
        invariant 0 <= handled <= |queue|
        invariant CanServe(queue[..handled]) && Contents() == Serve(queue[..handled])
      {
        assert queue[..handled + 1][..handled] == queue[..handled];
        o := Process(queue[handled]);
        if o.Raised? {
          return;
        }
        handled := handled + 1;
      }
      assert queue[..handled] == queue;
      o := Done;
    }
  }
}
