# VulkanPipelineInfoCache: a verified model of Filament's vertex-buffer-info pool

Filament's Vulkan backend keeps `VertexBufferInfo` records in a small object pool,
`VulkanPipelineInfoCache`. The pool lets it avoid a heap allocation on every draw. The
pool owns a growing vector of slabs (`mBacking`). Each slab is a fixed array of
`CACHE_INCREMENT` = 10 records. The pool also keeps a `std::list` of pointers to unused
records (`mBuffers`).
- The constructor pre-warms one slab.
- `get()` adds a slab when the free list is empty, then pops the front of the list.
- `release(p)` pushes `p` onto the back of the list, so records are reused in FIFO order.
- The destructor asserts that the list holds `slabs × 10` pointers.

This project models that class in Dafny and proves its behaviour.

- `pool_spec.dfy`, module `PoolSpec`, models the pool's state as a value.
  - A `Pool` holds the free list, the slab count and the set of records in use. The
    in-use set is not a field of the C++ class, and the model uses it only for proofs.
  - A record is identified by a `Handle(slab, slot)`. This stands for its address.
    Slabs are only appended and never move, so a handle always names the same record.
  - `Grow`, `Acquire`, `PushBack` and `GetMany` are the operations on that value.
    `GetMany` is n successive gets.
  - `PoolInvariant` states the pool invariant. Each lemma proves the invariant is kept or
    proves a property of a sequence of calls.
- `pipeline_info_cache.dfy`, module `VulkanPipelineInfoCache`, holds the imperative class.
  - Class `PipelineInfoCache` has the fields `free: seq<Handle>` (`mBuffers`) and
    `slabs: nat` (`mBacking.size()`), plus a ghost field `inUse`.
  - Its constructor, `IncreaseCapacity` (a `for` loop that pushes each new record's
    handle), `Get` and `Release` change those fields in place. Each is proved equal to
    the matching operation on the `Pool` value and to keep the invariant.
  - `Teardown` returns the destructor's assertion as a boolean.

The constructor allocates the first slab eagerly, so a fresh pool already owns one slab.
The free list is strictly FIFO (`pop_front` in `get`, `push_back` in `release`), and the
model states and proves that order.

## Model

| member | source | states |
|---|---|---|
| `VulkanPipelineInfoCache.PipelineInfoCache.constructor` | filament/backend/src/vulkan/VulkanPipelineInfoCache.h:40-42 | A new pool has one slab, all 10 of its records free in slot order, none in use, and the invariant holds |
| `VulkanPipelineInfoCache.PipelineInfoCache.IncreaseCapacity` | filament/backend/src/vulkan/VulkanPipelineInfoCache.h:64-70 | Adds exactly one slab and appends exactly its 10 records, in slot order, to the back of the free list; the entries already there and the in-use set are unchanged; the invariant is kept |
| `VulkanPipelineInfoCache.PipelineInfoCache.Get` | filament/backend/src/vulkan/VulkanPipelineInfoCache.h:48-55 | Grows only when the free list is empty at entry; returns the front of the (possibly grown) free list and removes exactly it, leaving the tail; the record was not in use, is in use afterwards, and belongs to an owned slab; the invariant is kept |
| `VulkanPipelineInfoCache.PipelineInfoCache.Release` | filament/backend/src/vulkan/VulkanPipelineInfoCache.h:57-59 | For a record in use: appends it to the back of the free list, takes it out of the in-use set, leaves the slab count alone; the invariant is kept |
| `VulkanPipelineInfoCache.PipelineInfoCache.Teardown` | filament/backend/src/vulkan/VulkanPipelineInfoCache.h:44-46 | The destructor's check `free-list size == slabs × 10` succeeds exactly when no record is still in use |
| `PoolSpec.ArenaCardinality` | filament/backend/src/vulkan/VulkanPipelineInfoCache.h:62-74 | n slabs of `std::array<VertexBufferInfo, 10>` hold exactly n × 10 distinct records |
| `PoolSpec.ArenaGrowth` | filament/backend/src/vulkan/VulkanPipelineInfoCache.h:65-66 | Appending slab n adds exactly its records and none that earlier slabs held: earlier slabs are untouched |
| `PoolSpec.SlabHandlesDistinct` | filament/backend/src/vulkan/VulkanPipelineInfoCache.h:67-69 | The 10 addresses pushed for one slab are pairwise distinct and all lie in that slab |
| `PoolSpec.ConservedCount` | filament/backend/src/vulkan/VulkanPipelineInfoCache.h:45 | Under the invariant, free + in use = slabs × 10 |
| `PoolSpec.TeardownConsistent` | filament/backend/src/vulkan/VulkanPipelineInfoCache.h:44-46 | Under the invariant, the destructor's assertion holds if and only if every record handed out has been released |
| `PoolSpec.GrowPreserves` | filament/backend/src/vulkan/VulkanPipelineInfoCache.h:64-70 | increaseCapacity keeps the free list duplicate-free, free and in-use disjoint, and their union equal to the owned records; it strictly enlarges the set of owned records |
| `PoolSpec.PopFrontPreserves` | filament/backend/src/vulkan/VulkanPipelineInfoCache.h:52-54 | Taking the front of a non-empty free list keeps the invariant and hands out a record that was not in use |
| `PoolSpec.AcquirePreserves` | filament/backend/src/vulkan/VulkanPipelineInfoCache.h:48-55 | get keeps the invariant, hands out a record that was not in use and that lies in an owned slab, adds exactly that record to the in-use set, and never shrinks the slab count |
| `PoolSpec.ReleasePreserves` | filament/backend/src/vulkan/VulkanPipelineInfoCache.h:57-59 | release of a record in use keeps the invariant; in particular no duplicate enters the free list |
| `PoolSpec.FreshPool` | filament/backend/src/vulkan/VulkanPipelineInfoCache.h:40-42 | A freshly constructed pool satisfies the invariant, owns 1 slab, has none in use and 10 free records, one per slot of slab 0 in slot order |
| `PoolSpec.GetManyOutstanding` | filament/backend/src/vulkan/VulkanPipelineInfoCache.h:48-55 | Successive gets with no release in between return pairwise distinct records, none of which was already in use, all of which remain in use; the invariant holds after them |
| `PoolSpec.GetManyFromFront` | filament/backend/src/vulkan/VulkanPipelineInfoCache.h:52-53 | While the free list lasts, n gets return its first n entries in order, leave the rest of it, and add no slab |
| `PoolSpec.ReleaseThenReuse` | filament/backend/src/vulkan/VulkanPipelineInfoCache.h:52-58 | FIFO reuse: after release(h), the next gets return every record that was already free, in order, and then h; h is not handed out sooner and no slab is added |
| `PoolSpec.FreshGetMany` | filament/backend/src/vulkan/VulkanPipelineInfoCache.h:40-54 | Growth arithmetic: n gets from a fresh pool return the records with flat indices 0 .. n-1 in order, leave ceil(n/10) slabs (1 when n = 0), and leave the rest of the last slab free |
| `PoolSpec.TwentyFiveGets` | filament/backend/src/vulkan/VulkanPipelineInfoCache.h:40-54 | 25 gets from a fresh pool leave 3 slabs and 5 free records |

## Left out

- The contents of `VertexBufferInfo` (lines 33-38) are left out. The pool never reads or
  writes them, and their field types are Vulkan and backend types that are not part of
  this model. A record is modelled only by its identity, a `Handle`.
- Raw pointers and `std::unique_ptr` ownership are replaced by handles into an arena
  that only ever grows. `mBacking` is modelled by its length, because the pool only
  appends to it and takes the address of each new element once.
- Heap-allocation failure in `std::make_unique` is left out. The source treats it as
  fatal.
- Releasing a record twice, or releasing a pointer the pool never handed out, breaks
  `release`'s contract, and the source does not check for it: `release` just calls
  `push_back`. After a double release the same record is in the free list twice. Two
  later `get` calls then hand that record to two clients. If everything comes back, the
  destructor's check sees `slabs × 10 + 1` entries and fails.
  `PipelineInfoCache.Release` therefore requires the record to be in use. The pure
  `PoolSpec.PushBack` pushes whatever it is given, as the C++ does. Only its invariant
  lemma requires a record that is in use.
- The destructor's `assert_invariant` aborts in debug builds. `Teardown` returns its
  condition as a boolean instead.
- The internals of `std::list` and `std::vector` are modelled as Dafny sequences. The
  `size_t` width of their sizes is not modelled, since sizes are unbounded integers here.
- Thread safety is left out. The class has no synchronisation and is used from one
  thread.
