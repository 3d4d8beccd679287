/** Message headers: a metadata handle and a field identifier that is computed on first use. */
module MessageHeader {
  import opened Wrappers
  import opened SharedMetadata

  /** The text a metadata object prints as. */
  datatype FieldId = Printed(md: Metadata)

  function Handles(live: set<Header>): set<Handle> {
    set h | h in live :: h.metadata
  }

  /** The headers have handles of their own, and the blocks are counted. */
  ghost predicate Valid(live: set<Header>)
    reads Handles(live), Blocks(Handles(live))
  {
    && (forall g, h :: g in live && h in live && g != h ==> g.metadata != h.metadata)
    && Counted(Handles(live))
  }

  /** Every cached identifier is that of the current metadata. */
  ghost predicate Current(live: set<Header>)
    reads live, Handles(live), Blocks(Handles(live))
  {
    forall h :: h in live ==> h.fieldId == None || h.fieldId == Some(Printed(h.Metadata()))
  }

  /** The header may be modified without anyone else noticing. */
  ghost predicate Exclusive(h: Header)
    reads h.metadata, h.metadata.metadata
  {
    h.metadata.moveOrCopy || h.metadata.metadata.useCount == 1
  }

  class Header {
    const metadata: Handle
    var fieldId: Option<FieldId>

    function Metadata(): Metadata
      reads metadata, metadata.metadata
    {
      metadata.Read()
    }

    constructor (md: Metadata, ghost live: set<Header>)
      requires Valid(live)
      ensures Metadata() == md && fieldId == None && fresh(metadata) && fresh(metadata.metadata)
      ensures Valid(live + {this})
    {
      metadata := new Handle(md, false, Handles(live));
      fieldId := None;
      new;
      assert Handles(live + {this}) == Handles(live) + {metadata};
    }

    constructor Copy(other: Header, ghost live: set<Header>)
      requires Valid(live) && other in live
      modifies other.metadata.metadata`useCount
      ensures fresh(metadata) && metadata.metadata == other.metadata.metadata
      ensures metadata.moveOrCopy == other.metadata.moveOrCopy && fieldId == other.fieldId
      ensures Valid(live + {this}) && (old(Current(live)) ==> Current(live + {this}))
    {
      metadata := new Handle.Copy(other.metadata, false, Handles(live));
      fieldId := other.fieldId;
      new;
      assert Handles(live + {this}) == Handles(live) + {metadata};
    }

    /** A header around `moveOrCopyMetadata()` of another. */
    constructor Around(other: Header, ghost live: set<Header>)
      requires Valid(live) && other in live
      modifies other.metadata.metadata`useCount
      ensures fresh(metadata) && metadata.metadata == other.metadata.metadata
      ensures metadata.moveOrCopy && fieldId == None
      ensures Valid(live + {this}) && (old(Current(live)) ==> Current(live + {this}))
    {
      metadata := new Handle.Copy(other.metadata, true, Handles(live));
      fieldId := None;
      new;
      assert Handles(live + {this}) == Handles(live) + {metadata};
    }

    method Release(ghost live: set<Header>)
      requires Valid(live) && this in live
      modifies metadata.metadata`useCount
      ensures Valid(live - {this})
    {
      assert Handles(live - {this}) == Handles(live) - {metadata};
      metadata.Release(Handles(live));
    }

    method AcquireMetadata(ghost live: set<Header>)
      requires Valid(live) && this in live
      modifies metadata`moveOrCopy
      ensures metadata.moveOrCopy
      ensures Valid(live) && (old(Current(live)) ==> Current(live))
    {
      metadata.Acquire();
      ghost var handles := Handles(live);
      forall h | h in handles ensures h.metadata.useCount == |Sharing(handles, h.metadata)| {
        assert Sharing(handles, h.metadata) == old(Sharing(handles, h.metadata));
      }
    }

    /** `modifyMetadata()` followed by setting one key. */
    method Set(key: string, value: string, ghost live: set<Header>)
      requires Valid(live) && this in live
      modifies `fieldId, metadata, metadata.metadata
      ensures Valid(live) && fieldId == None && (metadata.metadata == old(metadata.metadata) || fresh(metadata.metadata))
      ensures Metadata() == old(Metadata())[key := value]
      ensures metadata.moveOrCopy == (old(metadata.moveOrCopy) && old(metadata.metadata.useCount) == 1)
      ensures forall h :: h in live && h != this ==>
                h.Metadata() == if !old(metadata.moveOrCopy) && old(h.metadata.metadata == metadata.metadata)
                                then old(Metadata())[key := value]
                                else old(h.Metadata())
      ensures old(Exclusive(this)) ==>
                (forall h :: h in live && h != this ==> h.Metadata() == old(h.Metadata()))
                && (old(Current(live)) ==> Current(live))
    {
      fieldId := None;
      forall h | h in live && h != this && metadata.metadata.useCount == 1
        ensures h.metadata.metadata != metadata.metadata
      {
        OwnBlock(Handles(live), h.metadata, metadata);
      }
      metadata.Set(key, value, Handles(live));
      forall h | h in live && h != this
        ensures h.Metadata() == if !old(metadata.moveOrCopy) && old(h.metadata.metadata == metadata.metadata)
                                then old(Metadata())[key := value]
                                else old(h.Metadata())
      {
        assert h.metadata in Handles(live);
      }
    }

    /** Prints the metadata unless that was done before. */
    method FieldId(ghost live: set<Header>) returns (id: FieldId)
      requires this in live && Current(live)
      modifies `fieldId
      ensures id == Printed(Metadata()) && fieldId == Some(id) && Current(live)
    {
      if fieldId == None {
        fieldId := Some(Printed(metadata.Read()));
      }
      id := fieldId.value;
    }
  }
}
