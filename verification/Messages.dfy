/** Messages between clients and server. */
module Messages {
  import opened Bits
  import P = Parametrization

  /** A peer, by its rank in the order of `Peer::operator<`. */
  type Peer = nat

  /** The metadata the server reads. A `fieldId` is the printed metadata, so two messages have the
      same `fieldId` exactly when their metadata are equal. */
  datatype Metadata = Metadata(name: string, domain: string, level: int, globalSize: int,
                               representation: string, other: string)

  datatype Body =
    | Open
    | Close
    | Synchronization
    | DomainPart(definition: seq<int>)
    | MaskPart(payload: seq<byte>)
    | Parametrization(update: P.Update)
    | Other(tag: string, accepted: bool)  // Notification, Flush or Field, and whether no plan raises over it
    | Empty

  datatype Message = Message(source: Peer, md: Metadata, body: Body)

  function IsSync(m: Message): bool {
    m.body.Synchronization?
  }

  /** Messages that the listener passes on to the dispatcher. */
  function IsData(m: Message): bool {
    m.body.DomainPart? || m.body.MaskPart? || m.body.Parametrization? || m.body.Other?
  }

  /** The messages satisfying `p`, in order. */
  function Filter(ms: seq<Message>, p: Message -> bool): (r: seq<Message>)
    ensures |r| <= |ms|
  {
    if ms == [] then []
    else Filter(ms[..|ms| - 1], p) + if p(ms[|ms| - 1]) then [ms[|ms| - 1]] else []
  }

  lemma FilterSnoc(ms: seq<Message>, m: Message, p: Message -> bool)
    ensures Filter(ms + [m], p) == Filter(ms, p) + if p(m) then [m] else []
  {
    assert (ms + [m])[..|ms|] == ms;
  }

  /** The messages of one peer, in order. */
  function From(ms: seq<Message>, p: Peer): (r: seq<Message>)
    ensures |r| <= |ms|
  {
    if ms == [] then []
    else From(ms[..|ms| - 1], p) + if ms[|ms| - 1].source == p then [ms[|ms| - 1]] else []
  }

  lemma FromSnoc(ms: seq<Message>, m: Message, p: Peer)
    ensures From(ms + [m], p) == From(ms, p) + if m.source == p then [m] else []
  {
    assert (ms + [m])[..|ms|] == ms;
  }
}
