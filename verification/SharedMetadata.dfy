/** Copy-on-write metadata: handles share a counted block until one of them is to be modified. */
module SharedMetadata {

  type Metadata = map<string, string>

  /** What `std::make_shared` allocates: metadata and the number of handles that share them. */
  class Block {
    var value: Metadata
    var useCount: nat

    constructor (value: Metadata)
      ensures this.value == value && useCount == 1
    {
      this.value, useCount := value, 1;
    }
  }

  ghost function Sharing(live: set<Handle>, b: Block): set<Handle>
    reads live
  {
    set h | h in live && h.metadata == b
  }

  ghost function Blocks(live: set<Handle>): set<Block>
    reads live
  {
    set h | h in live :: h.metadata
  }

  /** Every block knows how many of the live handles share it. */
  ghost predicate Counted(live: set<Handle>)
    reads live, Blocks(live)
  {
    forall h :: h in live ==> h.metadata.useCount == |Sharing(live, h.metadata)|
  }

  lemma SharedTwice(live: set<Handle>, g: Handle, h: Handle)
    requires g in live && h in live && g != h && g.metadata == h.metadata
    ensures |Sharing(live, h.metadata)| >= 2
  {
    var s := Sharing(live, h.metadata);
    assert s == {g} + (s - {g}) && h in s - {g};
    assert s - {g} == {h} + (s - {g} - {h});
  }

  /** A handle with use count one shares its block with no other. */
  lemma OwnBlock(live: set<Handle>, g: Handle, h: Handle)
    requires Counted(live) && g in live && h in live && g != h && h.metadata.useCount == 1
    ensures g.metadata != h.metadata
  {
    if g.metadata == h.metadata {
      SharedTwice(live, g, h);
    }
  }

  lemma SharingWith(live: set<Handle>, h: Handle, b: Block)
    requires h !in live
    ensures |Sharing(live + {h}, b)| == |Sharing(live, b)| + if h.metadata == b then 1 else 0
  {
    if h.metadata == b {
      assert Sharing(live + {h}, b) == Sharing(live, b) + {h};
    } else {
      assert Sharing(live + {h}, b) == Sharing(live, b);
    }
  }

  lemma SharingWithout(live: set<Handle>, h: Handle, b: Block)
    requires h in live
    ensures |Sharing(live, b)| == |Sharing(live - {h}, b)| + if h.metadata == b then 1 else 0
  {
    assert live == live - {h} + {h};
    SharingWith(live - {h}, h, b);
  }

  lemma SharingNone(live: set<Handle>, b: Block)
    requires forall h :: h in live ==> h.metadata != b
    ensures |Sharing(live, b)| == 0
  {
    assert Sharing(live, b) == {};
  }

  class Handle {
    var metadata: Block
    var moveOrCopy: bool

    function Read(): Metadata
      reads this, metadata
    {
      metadata.value
    }

    constructor (md: Metadata, moveOrCopy: bool, ghost live: set<Handle>)
      requires Counted(live)
      ensures Read() == md && this.moveOrCopy == moveOrCopy && fresh(metadata)
      ensures Counted(live + {this})
    {
      metadata := new Block(md);
      this.moveOrCopy := moveOrCopy;
      new;
      SharingNone(live, metadata);
      forall h | h in live + {this} ensures h.metadata.useCount == |Sharing(live + {this}, h.metadata)| {
        SharingWith(live, this, h.metadata);
      }
    }

    /** The copy constructor, and `moveOrCopy()` when `lazy` is set. */
    constructor Copy(other: Handle, lazy: bool, ghost live: set<Handle>)
      requires Counted(live) && other in live
      modifies other.metadata`useCount
      ensures metadata == other.metadata && moveOrCopy == (lazy || other.moveOrCopy)
      ensures Counted(live + {this})
    {
      metadata, moveOrCopy := other.metadata, lazy || other.moveOrCopy;
      new;
      label Before:
      metadata.useCount := metadata.useCount + 1;
      forall h | h in live + {this} ensures h.metadata.useCount == |Sharing(live + {this}, h.metadata)| {
        SharingWith(live, this, h.metadata);
        assert h in live ==> old@Before(h.metadata.useCount) == |Sharing(live, h.metadata)|;
      }
    }

    /** The destructor. */
    method Release(ghost live: set<Handle>)
      requires Counted(live) && this in live
      modifies metadata`useCount
      ensures Counted(live - {this})
    {
      SharingWithout(live, this, metadata);
      metadata.useCount := metadata.useCount - 1;
      forall h | h in live - {this} ensures h.metadata.useCount == |Sharing(live - {this}, h.metadata)| {
        SharingWithout(live, this, h.metadata);
        assert old(h.metadata.useCount) == |Sharing(live, h.metadata)|;
      }
    }

    method Acquire()
      modifies this`moveOrCopy
      ensures moveOrCopy
    {
      moveOrCopy := true;
    }

    /** The block to modify through: the handle's own if the handle was acquired, and otherwise the
        one it shares. */
    method Modify(ghost live: set<Handle>) returns (b: Block)
      requires Counted(live) && this in live
      modifies this, metadata`useCount
      ensures b == metadata && b.value == old(metadata.value) && (b == old(metadata) || fresh(b))
      ensures Counted(live)
      ensures old(moveOrCopy) || old(metadata.useCount) == 1 ==> b.useCount == 1
      ensures !old(moveOrCopy) ==> b == old(metadata) && b.useCount == old(metadata.useCount)
      ensures moveOrCopy == (old(moveOrCopy) && old(metadata.useCount) == 1)
    {
      if moveOrCopy && metadata.useCount != 1 {
        ghost var rest := live - {this};
        forall h | h in live { SharingWithout(live, this, h.metadata); }
        metadata.useCount := metadata.useCount - 1;
        metadata := new Block(metadata.value);
        moveOrCopy := false;
        forall h | h in live ensures h.metadata.useCount == |Sharing(live, h.metadata)| {
          assert live == rest + {this};
          SharingWith(rest, this, h.metadata);
          if h == this {
            SharingNone(rest, metadata);
          } else {
            assert Sharing(rest, h.metadata) == old(Sharing(rest, h.metadata));
          }
        }
      }
      b := metadata;
    }

    /** Sets one key through `modify()`. The other live handles read what they read before, except
        those that share the block of a handle that was not acquired. */
    method Set(key: string, value: string, ghost live: set<Handle>)
      requires Counted(live) && this in live
      modifies this, metadata
      ensures Counted(live) && (metadata == old(metadata) || fresh(metadata))
      ensures Read() == old(Read())[key := value]
      ensures moveOrCopy == (old(moveOrCopy) && old(metadata.useCount) == 1)
      ensures forall h :: h in live && h != this ==>
                h.Read() == if !old(moveOrCopy) && old(h.metadata == metadata) then old(Read())[key := value]
                            else old(h.Read())
    {
      forall h | h in live && h != this && metadata.useCount == 1 ensures h.metadata != metadata {
        OwnBlock(live, h, this);
      }
      var b := Modify(live);
      forall h | h in live && h != this && b.useCount == 1 ensures h.metadata != b {
        OwnBlock(live, h, this);
      }
      b.value := b.value[key := value];
    }
  }
}
