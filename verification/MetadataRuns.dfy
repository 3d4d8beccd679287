/** Runs over many headers: with the discipline of acquiring before modifying, they behave as if each
    header held its own metadata. */
module MetadataRuns {
  import opened SharedMetadata
  import opened MessageHeader

  datatype Op =
    | Create(md: Metadata)
    | CopyOf(id: nat)
    | Lazy(id: nat)
    | Acquire(id: nat)
    | Modify(id: nat, key: string, value: string)
    | Identify(id: nat)
    | Drop(id: nat)

  // ---- value semantics

  /** Headers that hold their own metadata, and the identifiers printed so far. */
  datatype Values = Values(headers: map<nat, Metadata>, next: nat, printed: seq<FieldId>)

  predicate Known(v: Values, op: Op) {
    op.Create? || op.id in v.headers
  }

  function StepValues(v: Values, op: Op): Values
    requires Known(v, op)
  {
    match op
    case Create(md) => v.(headers := v.headers[v.next := md], next := v.next + 1)
    case CopyOf(id) => v.(headers := v.headers[v.next := v.headers[id]], next := v.next + 1)
    case Lazy(id) => v.(headers := v.headers[v.next := v.headers[id]], next := v.next + 1)
    case Acquire(_) => v
    case Modify(id, key, value) => v.(headers := v.headers[id := v.headers[id][key := value]])
    case Identify(id) => v.(printed := v.printed + [Printed(v.headers[id])])
    case Drop(id) => v.(headers := v.headers - {id})
  }

  predicate CanRun(ops: seq<Op>)
    decreases |ops|, 0
  {
    ops == [] || (CanRun(ops[..|ops| - 1]) && Known(RunValues(ops[..|ops| - 1]), ops[|ops| - 1]))
  }

  function RunValues(ops: seq<Op>): Values
    requires CanRun(ops)
    decreases |ops|, 1
  {
    if ops == [] then Values(map[], 0, []) else StepValues(RunValues(ops[..|ops| - 1]), ops[|ops| - 1])
  }

  // ---- the same operations on headers that share their metadata

  ghost predicate Sound(headers: map<nat, Header>, live: set<Header>)
    reads live, Handles(live), Blocks(Handles(live))
  {
    && Valid(live) && Current(live)
    && (forall id :: id in headers ==> headers[id] in live)
    && (forall i, j :: i in headers && j in headers && i != j ==> headers[i] != headers[j])
  }

  /** The headers, seen as if each held its own metadata. */
  ghost predicate Are(headers: map<nat, Header>, live: set<Header>, values: map<nat, Metadata>)
    requires forall id :: id in headers ==> headers[id] in live
    reads live, Handles(live), Blocks(Handles(live))
  {
    headers.Keys == values.Keys && forall id :: id in headers ==> headers[id].Metadata() == values[id]
  }

  /** All objects of the headers. */
  ghost function Objects(live: set<Header>): set<object>
    reads Handles(live)
  {
    live + Handles(live) + Blocks(Handles(live))
  }

  lemma Added(headers: map<nat, Header>, next: nat, live: set<Header>, v: map<nat, Metadata>, h: Header)
    requires Valid(live + {h}) && Current(live + {h}) && h !in live && next !in headers
    requires (forall id :: id in headers ==> headers[id] in live)
    requires forall i, j :: i in headers && j in headers && i != j ==> headers[i] != headers[j]
    requires Are(headers, live, v)
    ensures Sound(headers[next := h], live + {h}) && Are(headers[next := h], live + {h}, v[next := h.Metadata()])
  {
    hide Valid, Current;
  }

  method CreateHeader(headers: map<nat, Header>, next: nat, md: Metadata, ghost live: set<Header>, ghost v: map<nat, Metadata>)
    returns (headers': map<nat, Header>, ghost live': set<Header>)
    requires Sound(headers, live) && Are(headers, live, v) && next !in headers
    ensures Sound(headers', live') && Are(headers', live', v[next := md])
    ensures forall o :: o in Objects(live') ==> o in old(Objects(live)) || fresh(o)
  {
    var h := new Header(md, live);
    hide Counted;
    assert Handles(live + {h}) == Handles(live) + {h.metadata};
    Added(headers, next, live, v, h);
    headers', live' := headers[next := h], live + {h};
  }

  lemma CopiedHandles(live: set<Header>, h: Header, other: Header)
    requires other in live && h.metadata.metadata == other.metadata.metadata
    ensures Handles(live + {h}) == Handles(live) + {h.metadata}
    ensures Blocks(Handles(live + {h})) == Blocks(Handles(live))
  {
    assert Handles(live + {h}) == Handles(live) + {h.metadata};
    assert other.metadata in Handles(live);
  }

  method CopyHeader(headers: map<nat, Header>, next: nat, id: nat, ghost live: set<Header>, ghost v: map<nat, Metadata>)
    returns (headers': map<nat, Header>, ghost live': set<Header>)
    requires Sound(headers, live) && Are(headers, live, v) && next !in headers && id in headers
    modifies Objects(live)
    ensures Sound(headers', live') && Are(headers', live', v[next := v[id]])
    ensures forall o :: o in Objects(live') ==> o in old(Objects(live)) || fresh(o)
  {
    var other := headers[id];
    var h := new Header.Copy(other, live);
    hide Valid, Current;
    CopiedHandles(live, h, other);
    Added(headers, next, live, v, h);
    headers', live' := headers[next := h], live + {h};
  }

  method LazyHeader(headers: map<nat, Header>, next: nat, id: nat, ghost live: set<Header>, ghost v: map<nat, Metadata>)
    returns (headers': map<nat, Header>, ghost live': set<Header>)
    requires Sound(headers, live) && Are(headers, live, v) && next !in headers && id in headers
    modifies Objects(live)
    ensures Sound(headers', live') && Are(headers', live', v[next := v[id]])
    ensures forall o :: o in Objects(live') ==> o in old(Objects(live)) || fresh(o)
  {
    var other := headers[id];
    var h := new Header.Around(other, live);
    hide Valid, Current;
    CopiedHandles(live, h, other);
    Added(headers, next, live, v, h);
    headers', live' := headers[next := h], live + {h};
  }

  method ModifyHeader(headers: map<nat, Header>, id: nat, key: string, value: string, ghost live: set<Header>, ghost v: map<nat, Metadata>)
    requires Sound(headers, live) && Are(headers, live, v) && id in headers && Exclusive(headers[id])
    modifies Objects(live)
    ensures Sound(headers, live) && Are(headers, live, v[id := v[id][key := value]])
    ensures forall o :: o in Objects(live) ==> o in old(Objects(live)) || fresh(o)
  {
    hide Valid, Current;
    headers[id].Set(key, value, live);
  }

  method DropHeader(headers: map<nat, Header>, id: nat, ghost live: set<Header>, ghost v: map<nat, Metadata>)
    returns (headers': map<nat, Header>, ghost live': set<Header>)
    requires Sound(headers, live) && Are(headers, live, v) && id in headers
    modifies Objects(live)
    ensures Sound(headers', live') && Are(headers', live', v - {id})
    ensures forall o :: o in Objects(live') ==> o in old(Objects(live)) || fresh(o)
  {
    headers[id].Release(live);
    headers', live' := headers - {id}, live - {headers[id]};
  }

  method IdentifyHeader(headers: map<nat, Header>, id: nat, ghost live: set<Header>, ghost v: map<nat, Metadata>)
    returns (fieldId: FieldId)
    requires Sound(headers, live) && Are(headers, live, v) && id in headers
    modifies Objects(live)
    ensures Sound(headers, live) && Are(headers, live, v) && fieldId == Printed(v[id])
    ensures forall o :: o in Objects(live) ==> o in old(Objects(live)) || fresh(o)
  {
    fieldId := headers[id].FieldId(live);
  }

  method AcquireHeader(headers: map<nat, Header>, id: nat, ghost live: set<Header>, ghost v: map<nat, Metadata>)
    requires Sound(headers, live) && Are(headers, live, v) && id in headers
    modifies Objects(live)
    ensures Sound(headers, live) && Are(headers, live, v) && Exclusive(headers[id])
    ensures forall o :: o in Objects(live) ==> o in old(Objects(live)) || fresh(o)
  {
    hide Valid, Current;
    headers[id].AcquireMetadata(live);
  }

  method AddHeader(op: Op, headers: map<nat, Header>, next: nat, ghost live: set<Header>, ghost v: Values)
    returns (headers': map<nat, Header>, ghost live': set<Header>)
    requires Sound(headers, live) && Are(headers, live, v.headers) && Known(v, op)
    requires next == v.next && next !in headers && (op.Create? || op.CopyOf? || op.Lazy?)
    modifies Objects(live)
    ensures Sound(headers', live') && Are(headers', live', StepValues(v, op).headers)
    ensures forall o :: o in Objects(live') ==> o in old(Objects(live)) || fresh(o)
  {
    assert headers.Keys == v.headers.Keys;
    hide Sound, Are, Current, Valid, Objects;
    if op.Create? {
      headers', live' := CreateHeader(headers, next, op.md, live, v.headers);
    } else if op.CopyOf? {
      headers', live' := CopyHeader(headers, next, op.id, live, v.headers);
    } else {
      headers', live' := LazyHeader(headers, next, op.id, live, v.headers);
    }
  }

  method Step(op: Op, headers: map<nat, Header>, next: nat, printed: seq<FieldId>, ghost live: set<Header>, ghost v: Values)
    returns (headers': map<nat, Header>, next': nat, printed': seq<FieldId>, ghost live': set<Header>)
    requires Sound(headers, live) && Are(headers, live, v.headers)
    requires next == v.next && next !in v.headers && printed == v.printed && Permitted(op, headers, live, v)
    modifies Objects(live)
    ensures Sound(headers', live') && Are(headers', live', StepValues(v, op).headers)
    ensures next' == StepValues(v, op).next && printed' == StepValues(v, op).printed
    ensures forall o :: o in Objects(live') ==> o in old(Objects(live)) || fresh(o)
  {
    headers', next', printed', live' := headers, next, printed, live;
    assert headers.Keys == v.headers.Keys;
    hide Sound, Are, Current, Valid, Objects;
    match op {
      case Acquire(id) => AcquireHeader(headers, id, live, v.headers);
      case Modify(id, key, value) => ModifyHeader(headers, id, key, value, live, v.headers);
      case Identify(id) =>
        var fieldId := IdentifyHeader(headers, id, live, v.headers);
        printed' := printed + [fieldId];
      case Drop(id) => headers', live' := DropHeader(headers, id, live, v.headers);
      case _ =>
        headers', live' := AddHeader(op, headers, next, live, v);
        next' := next + 1;
    }
  }

  lemma {:induction false} NamesBelow(ops: seq<Op>)
    requires CanRun(ops)
    ensures forall id :: id in RunValues(ops).headers ==> id < RunValues(ops).next
    decreases |ops|
  {
    if ops != [] {
      NamesBelow(ops[..|ops| - 1]);
    }
  }

  lemma RunSnoc(ops: seq<Op>, k: nat)
    requires k < |ops| && CanRun(ops[..k]) && Known(RunValues(ops[..k]), ops[k])
    ensures CanRun(ops[..k + 1]) && RunValues(ops[..k + 1]) == StepValues(RunValues(ops[..k]), ops[k])
  {
    assert ops[..k + 1][..k] == ops[..k];
  }

  /** The operation names a header there is, and modifies none that is shared and not acquired. */
  ghost predicate Permitted(op: Op, headers: map<nat, Header>, live: set<Header>, v: Values)
    requires Sound(headers, live) && Are(headers, live, v.headers)
    reads live, Handles(live), Blocks(Handles(live))
  {
    && Known(v, op)
    && (op.Modify? ==>
          var handle := headers[op.id].metadata;
          assert handle in Handles(live) && handle.metadata in Blocks(Handles(live));
          Exclusive(headers[op.id]))
  }

  method Permit(op: Op, headers: map<nat, Header>, ghost live: set<Header>, ghost v: Values) returns (ok: bool)
    requires Sound(headers, live) && Are(headers, live, v.headers)
    ensures ok == Permitted(op, headers, live, v)
  {
    ok := op.Create? || op.id in headers;
    if ok && op.Modify? {
      var h := headers[op.id];
      ok := h.metadata.moveOrCopy || h.metadata.metadata.useCount == 1;
    }
  }

  /** Runs the operations up to the first one that names an unknown header or modifies one that is
      neither acquired nor unshared. Until then, every header reads as if it held its own metadata,
      and every printed identifier is that of the metadata at the time. */
  method Execute(ops: seq<Op>)
    returns (done: nat, headers: map<nat, Header>, printed: seq<FieldId>, ghost live: set<Header>)
    ensures done <= |ops| && CanRun(ops[..done])
    ensures Sound(headers, live) && Are(headers, live, RunValues(ops[..done]).headers)
    ensures printed == RunValues(ops[..done]).printed
    ensures done < |ops| ==> !Permitted(ops[done], headers, live, RunValues(ops[..done]))
  {
    var next := 0;
    done, headers, printed, live := 0, map[], [], {};
    assert fresh(Objects(live)) && Sound(headers, live) && Are(headers, live, RunValues(ops[..done]).headers);
    hide Objects, Sound, Are, CanRun, RunValues, StepValues;
    while done < |ops|
      invariant 0 <= done <= |ops| && CanRun(ops[..done])
      invariant Sound(headers, live) && Are(headers, live, RunValues(ops[..done]).headers)
      invariant printed == RunValues(ops[..done]).printed && next == RunValues(ops[..done]).next
      invariant fresh(Objects(live))
    {
      var op := ops[done];
      ghost var v := RunValues(ops[..done]);
      var ok := Permit(op, headers, live, v);
      if !ok {
        return;
      }
      NamesBelow(ops[..done]);
      RunSnoc(ops, done);
      headers, next, printed, live := Step(op, headers, next, printed, live, v);
      done := done + 1;
    }
  }
}
