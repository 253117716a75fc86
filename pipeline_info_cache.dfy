/** The pool object itself: VulkanPipelineInfoCache, which hands out VertexBufferInfo
    records from slabs of CacheIncrement records and takes them back on a FIFO free list.
    Each method is proved against the operation of the same name on the pool value. */
module VulkanPipelineInfoCache {
  import opened PoolSpec

  class PipelineInfoCache {
    /** mBuffers: the addresses of the unused records, front first. */
    var free: seq<Handle>
    /** mBacking.size(): slabs are only appended, so slab i always holds the same records. */
    var slabs: nat
    /** The records handed out by Get and not yet given back by Release. */
    ghost var inUse: set<Handle>

    /** The object's state as a pool value. */
    ghost function Model(): Pool
      reads this
    {
      Pool(free, slabs, inUse)
    }

    ghost predicate Valid()
      reads this
    {
      PoolInvariant(Model())
    }

    /** The constructor pre-warms one slab: ten free records, none in use. */
    constructor ()
      ensures Valid()
      ensures Model() == Fresh()
      ensures slabs == 1 && free == SlabHandles(0) && inUse == {}
    {
      free := [];
      slabs := 0;
      inUse := {};
      new;
      EmptyInvariant();
      IncreaseCapacity();
    }

    /** Appends one slab and pushes the address of each of its records, in slot order,
        onto the back of the free list. */
    method IncreaseCapacity()
      requires Valid()
      modifies this
      ensures Valid()
      ensures Model() == Grow(old(Model()))
      ensures slabs == old(slabs) + 1
      ensures free == old(free) + SlabHandles(old(slabs))
      ensures inUse == old(inUse)
    {
      var s := slabs;
      slabs := slabs + 1;
      for i := 0 to CacheIncrement
        invariant slabs == s + 1 && inUse == old(inUse)
        invariant free == old(free) + SlabHandles(s)[..i]
      {
        free := free + [Handle(s, i)];
      }
      assert SlabHandles(s)[..CacheIncrement] == SlabHandles(s);
      GrowPreserves(old(Model()));
    }

    /** get(): grows the pool only when no record is free, then hands out the record at the
        front of the free list. The record was not in use, and now is. */
    method Get() returns (h: Handle)
      requires Valid()
      modifies this
      ensures Valid()
      ensures Acquired(h, Model()) == Acquire(old(Model()))
      ensures old(free) != [] ==> slabs == old(slabs) && h == old(free)[0] && free == old(free)[1..]
      ensures old(free) == [] ==>
                slabs == old(slabs) + 1 && h == Handle(old(slabs), 0) && free == SlabHandles(old(slabs))[1..]
      ensures h !in old(inUse) && inUse == old(inUse) + {h}
      ensures h.slab < slabs && h.slot < CacheIncrement
    {
      if free == [] {
        IncreaseCapacity();
      }
      h := free[0];
      free := free[1..];
      inUse := inUse + {h};
      AcquirePreserves(old(Model()));
      ArenaMembership(h, slabs);
    }

    /** release(h): pushes h onto the back of the free list; nothing else changes. The
        caller must give back a record it holds, and only once. */
    method Release(h: Handle)
      requires Valid() && h in inUse
      modifies this
      ensures Valid()
      ensures Model() == PushBack(old(Model()), h)
      ensures free == old(free) + [h] && slabs == old(slabs) && inUse == old(inUse) - {h}
    {
      free := free + [h];
      inUse := inUse - {h};
      ReleasePreserves(old(Model()), h);
    }

    /** The destructor's assertion, free-list size == slabs * CACHE_INCREMENT, as a result:
        it holds exactly when no record is still in use. */
    method Teardown() returns (consistent: bool)
      requires Valid()
      ensures consistent <==> |free| == slabs * CacheIncrement
      ensures consistent <==> inUse == {}
    {
      consistent := |free| == slabs * CacheIncrement;
      TeardownConsistent(Model());
    }
  }
}
