# APCu: a model of its shared memory, cache, persistence and lock

APCu keeps a key/value cache in one shared memory segment that several PHP processes map at
different addresses. This project models the parts of it on which everything else rests, and
proves what they keep:

- **The allocator** (`apc_sma.c`). `Blocks` has the blocks of the segment as a sequence, and what
  allocating, freeing and coalescing mean for it. `Heap` has the block headers by offset, with
  their back tags and the free list threaded through them. `Compaction` says what a
  defragmentation does to the sequence, `Sweep` follows the headers through its single pass,
  `Payload` the bytes that are moved. The class `Sma` in `SharedMemory` updates headers, bytes and
  the count of available bytes as the C functions do.
- **The cache** (`apc_cache.c`). `Chains` has the linked lists, in which the head word of a list is
  treated as if it were an entry; `Table` has all slot chains and the gc list at once; `Entries`
  the records, the counters and the steps; `Effects` says what an operation may do, seen from
  outside; `Owner` ties entries to allocated blocks, `Imprint` their values to the bytes of these
  blocks. In the class `Cache`, each locked section of the source is one method, over an `Sma`.
  `History` has the steps that these operations make in runs of any number of processes;
  `References` says when references are safe in such runs, `StaleRelease` shows a run in which they
  are not, and `LastStored` says that what is found is what was written last.
- **Persistence** (`apc_persist.c`). `Graph` has PHP values as a graph of strings, arrays and
  references, with the walk that both passes make; `Reach` says that it meets what can be reached.
  `Persist` is the counting pass, `Copy` and `CopyPass` the copying pass, `Unpersist` and `Restore`
  the way back, `Isomorphism`, `InDegree` and `RoundTrip` what both together amount to.
- **All of these together**: `Lifecycle` persists a value, stores the image in the segment,
  defragments, fetches, and unpersists.
- **The lock** (`apc_lock.c`, Windows). `Lock` is a transition system over any number of processes
  that may die at any step.
- **What sits on top**: `Iterator` (with `Listing`) is APCUIterator over the active list, `Counter`
  is `apcu_inc` by many processes at once, `EntryLevel` is `apcu_entry` with its nested calls.

How the pieces fit: `Cache.Valid` says that the lists are linked both ways, that each key has at
most one entry and that it is in the chain `hash % nslots`, that the counters agree with the chains,
that references are counted, that each allocated block has exactly one owner, that the bytes of that
block hold the image of its entry's value, and that every linked entry has the value last stored
under its key (`last`). Every method keeps it. Entries are known by their offsets; a defragmentation
gives them new ones, and `Cache.Cache.Defragment` says that block after block holds the same entries
and the same bytes as before. `Cache.Cache.Fetch` reads images from the bytes.

That a fetch returns the last stored value or misses is the invariant `Recorded` together with what
each method does to `last`, and over whole runs `LastStored.FindsLatest`. Why a key may lose its
entry is part of each contract: `Purged` (only if expired), `Survived` (exactly if expired), `Wiped`.

`Upheld` says that an operation keeps every reference that exists and makes none, `GcUpheld` that it
loses exactly those that the gc gives up. In `History.Step`, what a process may release is a matter of
what it has found, not of what is still there, and a release that comes too late decrements whatever
is in its place. `History.Perform` ties these steps to the methods of the class.

Decisions about the model:

- Offsets and sizes are natural numbers; `size_t` and `time_t` overflow is not modelled. Integers
  that `apcu_inc` updates wrap around at 64 bits. The sizes of the C structs are constants
  (`Blocks.BLOCK`, `Graph.HASHTABLE`, ...) or parameters (`Table.Layout`).
- Block headers are kept in a map by offset, the payload bytes in a sequence, the link words and
  records of entries in maps by offset; an integer is in the record, the image of any other value in
  the bytes behind the entry and its key. The callback of the defragmenter writes only link words, and
  the defragmenter itself reads only headers, so `Cache.Replay` makes the calls of the callback after
  `Sma.Defrag`, in the same order.
- Time is a parameter. The clock is read once per operation, where the source reads it at each
  removal.
- An entry's record names the holders of its references; the code only reads their number.
- The hash function, the search of an iterator and the serializer are arbitrary.
- The lock is stepped through at each access to a shared word, under sequential consistency, with a
  sound liveness query and without reuse of process ids. The order of those steps is the source's;
  spin counts and clocks are free choices.

Five things that the source says of itself, or that one expects of it, are true only with a condition, and the exact condition
is proved:

- A lock whose writer died can become free again exactly if the writer had published its process id
  (`Lock.RecoverableIffPublished`). It dies without, and leaves the flag set for ever, between
  apc_lock.c:177 and 179 (taken, not published), 199 and 200 (giving up), 266 and 267 (releasing), and
  between 66 and 68 (a process that revokes a dead writer and dies itself).
- An idle process can still get the write lock, in some continuation, exactly if no reader died while
  it was counted and no writer died in one of these windows (`Lock.WriterMayEnterIff`). For a read lock, only the latter matters (`Lock.ReaderMayEnterIff`).
- Of all `apcu_entry` calls for one key, only one generator runs: unless the generator of a missing
  key calls `apcu_entry` for that same key. The inner call takes no lock, finds nothing, and runs its
  own generator, and then the outer one completes as well (`EntryLevel.RecursiveCallRunsTwice`).
  `EntryLevel.SingleFlightIff` says that exactly such calls lead to a second completion.
- An entry that is referenced is neither freed nor moved: unless gc_ttl is positive and the gc gives up
  an entry that is still referenced. Then the release of that reference, which comes later, takes away
  a reference of whoever has got the memory by then, and that entry can be freed although it was never
  on the gc list (`StaleRelease.GivingUpCanLoseOthers`, a run for every positive gc_ttl).
  `References.ReleasesFindIff` says that all releases find their references exactly if the gc never
  gives up a referenced entry, which it never does with gc_ttl 0 (`References.NeverWithoutGcTtl`), or
  while nobody keeps a reference for more than gc_ttl seconds (`References.NeverWhileBrief`).

- A default expunge wipes the cache only if there is no other way to make room: except that it looks at
  the available bytes before the defragmentation, which would add the slack of the moved blocks
  (`Cache.SlackComesTooLate`). `Cache.Cache.DefaultExpunge` says that it wipes exactly if the bytes that are
  free or junk are too few before, or no free block is large enough after moving what is not referenced.

`dafny verify dfyconfig.toml` checks the whole project.

## Model

| member | source | states |
|---|---|---|
| Blocks.FreeUndoesAllocate | apc_sma.c:199-299 | Giving back the block that was just allocated restores the very same blocks, whether it was taken whole or split off. |
| Blocks.AllocatedCarves | apc_sma.c:215-233 | How many bytes an allocation takes, where the rest is, and that all other allocated blocks stay. |
| Blocks.VacatedTwice | apc_sma.c:267-290 | Giving back many blocks one after the other leaves the same heap in whatever groups they are given back. |
| SharedMemory.Sma.constructor | apc_sma.c:120-141 | A new segment is one free block between the two sentinels, with everything in order. |
| SharedMemory.Sma.FindBlock | apc_sma.c:161-196 | NULL only if every listed block is too small; else the first fitting block, or the smallest fitting one among it and the three after it. |
| SharedMemory.Sma.Allocate | apc_sma.c:199-247 | Fails exactly if no free block is large enough, and then changes nothing; else it takes from the chosen block the size rounded up with its header, and no more unless less than min_block_size would be left over, which stays free right behind; no other block changes, and the heap invariant holds again. |
| SharedMemory.Sma.Deallocate | apc_sma.c:250-299 | The block becomes free and is joined with free neighbours on both sides; available bytes grow by its size; exactly the other allocated blocks are left, as they were; the assertion on the back tag holds. |
| SharedMemory.Sma.Defrag | apc_sma.c:514-574 | The single pass leaves a heap in order, whose blocks and accepted moves are those of the specification, with available bytes grown by the slack and every payload unchanged. |
| SharedMemory.Sma.CheckAvail | apc_sma.c:480-482 | True exactly if all free blocks together are large enough. |
| SharedMemory.Sma.CheckAvailContiguous | apc_sma.c:484-512 | True exactly if some free block is large enough, that is, if an allocation would succeed. |
| Heap.UnlinkFree | apc_sma.c:156-159 | Unlinking a free block takes exactly it out of the doubly linked free list. |
| Heap.LinkFree | apc_sma.c:146-154 | Linking a free block at the start adds exactly it to the free list. |
| Heap.JoinLeft | apc_sma.c:267-277 | A block being freed swallows the free block before it, found by its back tag. |
| Heap.JoinRight | apc_sma.c:279-290 | A block being freed swallows the free block after it. |
| Heap.SettleUsed | apc_sma.c:215-239 | Marking a block allocated restores the heap invariant, with the used bytes noted in it. |
| Heap.SettleFree | apc_sma.c:292-296 | Giving a block its back tag and linking it restores the heap invariant. |
| Compaction.CompactTiles | apc_sma.c:514-574 | After a defragmentation the blocks tile the segment, no two free ones are neighbours, and the first block stays where it is if it is allocated. |
| Compaction.CompactSlides | apc_sma.c:514-574 | Allocated blocks correspond one to one in order; none moves up; what moves loses its slack and nothing else; what refuses stays. |
| Compaction.CompactTight | apc_sma.c:534-549 | Every block that may be moved is moved: one that is left behind a free block has refused. |
| Compaction.CompactFreeSum | apc_sma.c:551-571 | Free space grows by exactly the slack that the allocated blocks lose. |
| Compaction.CompactGathers | apc_sma.c:514-574 | If nothing refuses, all free space ends up in one block at the right end. |
| Compaction.CompactionServes | apc_sma.c:514-574 | After that, every request that fits into the available memory fits into one block. |
| Sweep.SlideStep | apc_sma.c:551-568 | Moving a block over the free block before it keeps the state of the sweep. |
| Sweep.Stay | apc_sma.c:540-549 | Settling a free block that cannot be combined keeps the state of the sweep. |
| Payload.SlidePayloads | apc_sma.c:557-558 | The memmove keeps what every allocated block holds. |
| Chains.UnlinkChain | apc_cache.c:191-198 | Unlinking takes the entry out of its list, also if it is the first and its prev is the head word. |
| Chains.LinkChain | apc_cache.c:181-188 | Linking puts the entry into the list behind the given cell. |
| Chains.MoveChain | apc_cache.c:162-177 | A moved entry takes the place of the old one in its list. |
| Table.Unlink | apc_cache.c:191-198 | All other lists stay as they are when an entry is unlinked from one. |
| Table.Link | apc_cache.c:181-188 | All other lists stay as they are when an entry is linked into one. |
| Table.Move | apc_cache.c:162-177 | All other lists stay as they are when an entry is moved. |
| Entries.Drop | apc_cache.c:200-214 | Removing an unreferenced entry keeps lists, keys and counters in order; the counters were not zero, so their guards hide nothing. |
| Entries.Park | apc_cache.c:200-220 | So does removing a referenced one, which goes to the gc list. |
| Entries.Insert | apc_cache.c:483-488 | Linking a stored entry into the chain of its key keeps lists, keys and counters in order. |
| Entries.Shift | apc_cache.c:162-177 | Moving an unreferenced entry does too. |
| Entries.EmptyConsistent | apc_cache.c:333-343 | The zeroed header is an empty cache in order. |
| Cache.Cache.constructor | apc_cache.c:311-365 | A new cache owns the first block of the segment and has no entries, and there is room for exactly the requests that fit behind the header (for none if what is left is below min_block_size). |
| Cache.Cache.FreeEntry | apc_cache.c:124-126 | The block of an entry is given back, no other block changes, and exactly that entry owns nothing any more. |
| Cache.Cache.UnlinkEntry | apc_cache.c:191-198 | All lists are linked as before, both ways, with exactly the entry gone from its list, whether it was behind the head word or another entry. |
| Cache.Cache.LinkEntry | apc_cache.c:181-188 | All lists are linked as before, both ways, with exactly the entry added to the list behind the given cell. |
| Cache.Cache.RemoveEntry | apc_cache.c:200-220 | The key loses its entry; it is freed if nobody references it, else it is at the head of the gc list since now; nothing else changes. |
| Cache.Cache.Gc | apc_cache.c:222-257 | Exactly the entries stay on the gc list, in order, that are referenced and not there for more than gc_ttl seconds; nothing else changes. |
| Cache.Cache.MakeWay | apc_cache.c:448-481 | The loop of an insert: removes exactly the expired entries before the entry of the key (or all in the chain), and that entry, and stops exactly if an exclusive insert meets one that is not hard expired. |
| Cache.Cache.Insert | apc_cache.c:438-491 | An exclusive insert fails exactly if the key has an entry that is not hard expired; else the key has the new entry, in the chain hash % nslots, at its end if the key had none; no expired entry is left before it in that chain; other keys lose only expired entries; held entries stay. |
| Cache.Cache.Store | apc_cache.c:611-656 | Afterwards the key has the value with no references left over, or nothing was stored; if there is room it fails exactly for want of the lock or for an exclusive store of a key whose ttl has not passed, and nothing is wiped; if nothing is referenced and the bytes that are free or junk are ample, nothing is wiped either, and a new key is stored; other keys keep their entries unless these were expired or the cache was wiped; held entries stay. |
| Cache.Cache.Publish | apc_cache.c:634-655 | The second half of it: an entry that is refused, or for which there is no lock, is freed, one that is inserted is released; all other references stay. |
| Cache.Cache.TryNew | apc_persist.c:478-483 | A new entry is born with one reference, and only if there is room; its image is written into its block, and the bytes of no other entry change. |
| Cache.Cache.NewEntry | apc_sma.c:350-393 | An allocation fails only if the request exceeds max_alloc_size, and then changes nothing, or if the lock for the expunge was not granted, or if the cache was wiped and still has no block large enough; in the last case, if nobody held anything, no entry is then left at all. If nothing is referenced and the bytes that are free or junk are ample for all who want memory, nothing is wiped and it succeeds. It starts again as often as its expunge is skipped because another process made one. |
| Cache.Cache.Expunge | apc_sma.c:385-389 | The expunge of an allocation is skipped if another process expunged since the cleanups were read; all expunges together drop only expired entries, or wipe the cache, and never wipe it as long as the bytes that are free or junk are enough for both. (A clear in between sets the number of cleanups back, so that an expunge after it causes no skip.) |
| Cache.Cache.RoomWhenEmpty | apc_sma.c:350-393 | With no entries left, an allocation fails exactly if the request does not fit into what the header leaves of the segment. |
| Cache.Cache.FindNostat | apc_cache.c:537-563 | Finds the entry of the key exactly if there is one and its ttl is 0 or has not passed since its creation. |
| Cache.Cache.Find | apc_cache.c:566-598 | The same, counting hits and misses and noting the access. |
| Cache.Cache.FindIncref | apc_cache.c:600-609 | The same, with one more reference, on an entry that has the last stored value; other references stay. |
| Cache.Cache.ReadValue | apc_cache.c:1104-1108 | The value that is read from the bytes of the entry's block is the entry's. |
| Cache.Cache.Fetch | apc_cache.c:924-951 | A fetch returns the value last stored or updated under the key, or misses: exactly if there is none or its ttl has passed since its creation. Hits and misses are counted; references are as before. |
| Cache.Cache.Release | apc_cache.c:777-780 | The count is decremented without looking: if the reference is still there, exactly it is gone; if the gc has given it up, the entry that is there now has one count less than it has references. |
| Cache.Cache.AtomicAdd | apc_cache.c:1019-1046 | Adds to an integer whose ttl has not passed, with wrap-around, notes the time of the change but not as its creation, and returns the new value; else nothing changes. |
| Cache.Cache.Delete | apc_cache.c:1067-1102 | The key has no entry afterwards, and every other key has the one it had; held entries stay. |
| Cache.Cache.Clear | apc_cache.c:822-842 | Every slot is empty and the counters are zero; held entries stay on the gc list. |
| Cache.Cache.RealExpunge | apc_cache.c:795-820 | Every slot is empty; what is left is referenced or was outside the slots before. |
| Cache.Cache.MoveEntry | apc_cache.c:162-177 | A moved entry changes no list, no key and no record; held entries stay where they are. |
| Cache.Cache.Replay | apc_sma.c:540-558 | After all accepted moves the entries own exactly the blocks that the defragmentation left, and the header's block was never offered. |
| Cache.Cache.Defragment | apc_cache.c:903-904 | Every slot chain, the gc list and every key have the same records as before, in the same order; what is held stays where it is; the allocated blocks, in order, hold the same entries and the same bytes, so that each entry has its own bytes at its new place. |
| Imprint.HoldingsMoved | apc_sma.c:551-558 | When a block moves together with its entry, the blocks hold the same entries in the same order. |
| Imprint.StillImprinted | apc_sma.c:557-558 | If the blocks hold the same entries and the same bytes, every entry still has its value in its block. |
| Imprint.ImprintedNew | apc_persist.c:271-283 | Writing the image of a new entry into its block leaves the values of all other entries as they are. |
| Cache.Cache.DefaultExpunge | apc_cache.c:844-922 | Skipped exactly if the number of cleanups is larger than it was when it was read (a clear sets it back to 0); else all or nothing: exactly the entries that are not expired survive and there is room, or every slot is empty. It is the latter exactly if freeing the junk and moving blocks together would not make room; with nothing referenced, exactly if the bytes that are free, expired or nobody's any more are fewer than are wanted. |
| Cache.Cache.MakeRoom | apc_cache.c:875-910 | The clean-up and the defragmentation make room exactly if the free bytes with those of the junk are enough, and then, with the unreferenced blocks moved together, one free block is large enough. |
| Cache.Cache.ExpiredIsJunk | apc_cache.c:875-891 | With nothing referenced, that junk has all expired entries, so that their bytes count. |
| Cache.SlackComesTooLate | apc_cache.c:893-897 | A heap in which a defragmentation would make room, but too little is free before it, so that the cache is wiped. |
| Effects.CleanUp | apc_cache.c:875-891 | The clean-up frees exactly the entries that are expired or nobody's any more and not referenced, and those that the gc gives up. |
| Cache.Cache.BlockHasOneOwner | apc_cache.c:200-257 | Every allocated block is the header's or exactly one entry's, which is in exactly one slot chain, on the gc list, or being stored and referenced. |
| Effects.RemoveEffect | apc_cache.c:200-220 | What removing an entry does to keys, lists and references. |
| Effects.ShiftEffect | apc_cache.c:162-177 | Moving an unreferenced entry changes nothing that can be observed. |
| Effects.AllEmpty | apc_cache.c:801-816 | When all slots are empty, no key has an entry, and the counters are zero already. |
| History.Perform | apc_cache.c:438-1102 | Every operation of the cache, also a release that comes too late, does to the table what the steps of a run say; all others keep the invariant. |
| References.StepHeldAt | apc_cache.c:200-257 | No operation, whoever does it, frees or moves an entry that a process holds, except that process giving its reference back, and a collection that gives it up. |
| References.ReleasesFindIff | apc_cache.c:222-257 | In any run of any operations of any processes, every release that is owed finds its reference, all along, exactly if no operation that collects gives up an entry that is still referenced. |
| References.HeldThroughRun | apc_cache.c:162-166 | In a run in which nothing referenced is given up, an entry that is held is still there, at the same place, with the same key and value, until its holder gives it back. |
| References.NeverWithoutGcTtl | apc_cache.c:238-243 | With gc_ttl 0 nothing that is referenced is ever given up. |
| References.NeverWhileBrief | apc_cache.c:238-243 | Nor as long as nobody keeps a reference for more than gc_ttl seconds. |
| References.FetchAmidst | apc_cache.c:924-951 | A fetch among the operations of others reads the value that the key had when it was found. |
| StaleRelease.GivingUpCanLoseOthers | apc_cache.c:238-255 | Whenever gc_ttl is positive, there is a run in which a process releases a reference that was given up, and by that an entry is freed that another process holds and that was not on the gc list. |
| LastStored.FindsLatest | apc_cache.c:537-563 | In every run, as long as no such release happens, what is found under a key has the value that the latest insert or update of that key wrote. |
| LastStored.FoundUntil | apc_cache.c:143-145 | And a key that has an entry is found exactly while the time is at most that of the latest insert plus its ttl, or its ttl is 0, whatever has read, updated or moved the entry since. |
| LastStored.FoundAfterInsert | apc_cache.c:143-145 | In particular after an insert, as long as there are only lookups, releases and updates. |
| Owner.AllocateOwned | apc_sma.c:199-247 | A newly allocated block is no entry yet, and lies behind the header. |
| Owner.FreeOwned | apc_sma.c:250-299 | A freed block has no owner, and all others keep theirs. |
| Owner.ReplayOwned | apc_sma.c:540-568 | Each accepted move takes an entry's block to a place that was free. |
| Owner.EmptyHeap | apc_sma.c:350-393 | Without entries the heap is the header's block and one free block. |
| Graph.VisitFresh | apc_persist.c:123-138 | The walk ends on cyclic values, and meets every node once. |
| Reach.VisitsReachable | apc_persist.c:218-249 | It meets exactly the nodes that can be reached, and gets through exactly if neither an object nor a resource can be reached. |
| Persist.Sizing.CalcVal | apc_persist.c:218-249 | The first pass counts exactly the bytes of the nodes met for the first time, asks for serialization exactly if it meets an object, and fails on a resource. |
| Persist.Sizing.CalcHt | apc_persist.c:140-192 | The same for an array with its keys and elements. |
| CopyPass.Copying.CopyVal | apc_persist.c:92-100 | The second pass walks as the first did, uses up exactly the bytes counted, so that no allocation fails its assertion, copies every new node, and every offset it stores is inside the allocation. |
| CopyPass.Copying.CopyRef | apc_persist.c:314-329 | The same for a reference, also if it leads back to itself. |
| CopyPass.Copying.CopyHt | apc_persist.c:333-414 | The same for an array; offset 0 stands for an array without elements, and for nothing else. |
| Copy.NodesApart | apc_persist.c:271-283 | Copies of nodes, of the bucket arrays of arrays and of the string keys of buckets begin at word boundaries inside the allocation, and no two of them overlap, with all that they hold (24 bytes, the characters and a null byte for a string; 8 + 16 bytes per bucket for a packed array, else 4 per slot and 32 per bucket). |
| Copy.BytesHold | apc_persist.c:140-249 | What is counted is the sum of what the parts hold, with less than a word of padding for each. |
| Copy.Filled | apc_persist.c:366-411 | A copied array has its elements in order, the first used bucket as its internal pointer, and the next free key after its largest. |
| Copy.NextFreeIs | apc_persist.c:366-408 | The next free key is above all integer keys, and the key before it is in use if it is not 0. |
| Copy.FirstUsedIs | apc_persist.c:367-397 | The internal pointer is at the first bucket that is no hole. |
| Unpersist.ImageIsomorphic | apc_persist.c:431-455 | The image, read as a graph, is isomorphic to the value. |
| Unpersist.ImageReadable | apc_persist.c:561-566 | All offsets in the image are below mem_size and lead to nodes, and its arrays have elements. |
| Restore.Restoring.RestoreVal | apc_persist.c:568-576 | Copying back restores every node once, translates every offset, and counts every pointer to a node as one reference. |
| Restore.Restoring.RestoreHt | apc_persist.c:644-700 | The same for an array; the assertion that it has elements holds. |
| Restore.Restoring.RestoreRef | apc_persist.c:618-632 | The same for a reference. |
| RoundTrip.Store | apc_persist.c:485-539 | A value is copied exactly if it has no objects and no resources and no serializer wants it; the copy is isomorphic to it, its parts lie behind the entry and its key and do not overlap, and it uses up exactly the bytes counted: what the parts hold and less than a word of padding for each; it is serialized exactly if it has to be and can be, into as many bytes as its text needs. |
| RoundTrip.Fetch | apc_persist.c:733-757 | What is fetched is isomorphic to the image, and the reference count of every node is the number of places that hold a pointer to it. |
| InDegree.PointersCounted | apc_persist.c:618-700 | The pointers counted while copying back are as many as there are such places. |
| RoundTrip.StoreThenFetch | apc_persist.c:485-757 | What is fetched is isomorphic to what was stored: same keys, order, sharing and cycles; and a value is stored exactly if neither an object nor a resource can be reached from it. |
| Lifecycle.StoreDefragmentFetch | apc_cache.c:611-951 | What is stored in the cache, moved by any number of defragmentations and then fetched from the bytes of the segment, is isomorphic to the value that was stored; it is found exactly if it is not hard expired. |
| Lock.WriteHolderIsAlone | apc_lock.c:109-211 | While a live process holds the write lock, no other live process holds it and nobody holds a read lock. |
| Lock.ReadersIsExact | apc_lock.c:154-166 | The readers word is the number of processes, dead or alive, between their increment and their decrement. |
| Lock.LiveOwnerIsNotRevoked | apc_lock.c:65-72 | No other process takes the flag or the published id from a live writer. |
| Lock.AbortReleases | apc_lock.c:191-202 | A write attempt that times out leaves the readers word alone and the lock free of that writer. |
| Lock.RecoverableIffPublished | apc_lock.c:118-152 | The lock of a dead writer can become free again exactly if its process id was published. |
| Lock.RecoveryRun | apc_lock.c:118-152 | If it was, any live process can get it free on its own. |
| Lock.DeadReaderBlocksWriters | apc_lock.c:191-205 | A reader that died while it was counted stays so, and in no continuation does anybody get the write lock that did not have it. |
| Lock.WriterMayEnterIff | apc_lock.c:109-211 | An idle live process can still get the write lock exactly if no dead process is counted as a reader and no dead process left the flag without its id. |
| Lock.ReaderMayEnterIff | apc_lock.c:109-168 | An idle live process can get a read lock, in some continuation, exactly if no dead process left the flag without its id; readers that died are not in its way. |
| Lock.OrphanExists | apc_lock.c:177-179 | There is a run in which a writer dies and leaves the flag without its id. |
| Lock.DeadReaderExists | apc_lock.c:154-166 | There is a run in which a reader dies while it is counted. |
| Lock.RunKeepsInv | apc_lock.c:109-274 | The invariant of the lock holds all along every run. |
| Counter.NoLostIncrements | apc_cache.c:1019-1065 | In every run from an absent key or any integer, the entry holds the initial value plus all additions so far, wrapped around. |
| Counter.ReturnsRunningTotals | php_apc.c:674-678 | Every return value is the running total where the addition took effect. |
| Counter.EachCallAddsOnce | apc_cache.c:1031-1064 | Every completed call has added exactly once, and none fails. |
| Counter.AddIsIncrease | apc_cache.c:1031-1041 | An addition is what the update of the cache does to the entry of the key. |
| Counter.StoreIsInsert | apc_cache.c:462-464 | Storing 0 exclusively is what an exclusive insert into the cache does: it never resets a counter. |
| Listing.ListsEveryKey | apc_iterator.c:166-197 | The listing has exactly the entries that match and are not hard expired. |
| Listing.ListedDistinct | apc_iterator.c:199-237 | It has each of them once. |
| Listing.ItemsVisible | apc_iterator.c:166-237 | The items are the entries of keys that the search wants and whose ttl has not passed, each of them once. |
| Iterator.Iterator.FetchActive | apc_iterator.c:199-237 | Fetches the items of the next slots in order, and stops early only when there are no more slots. |
| Iterator.Iterator.Rewind | apc_iterator.c:382-395 | Everything is still to come. |
| Iterator.Iterator.IsValid | apc_iterator.c:397-411 | False exactly if nothing is left; what is left does not change. |
| Iterator.Iterator.Foreach | apc_iterator.c:382-473 | For every chunk size, a loop over an unchanged cache visits exactly the entries of keys that the search wants and whose ttl has not passed, each once, in slot order. |
| Iterator.Iterator.Totals | apc_iterator.c:275-304 | Count, size and hits are those of the listing. |
| Iterator.Iterator.DeleteAll | apc_iterator.c:560-585 | A fresh iterator deletes exactly the matching entries whose ttl has not passed, and no other. |
| EntryLevel.Thread.Run | apc_cache.c:1315-1354 | However deep the calls nest, whatever throws and whatever user code catches, the real lock is taken once and released once, all work is done in between, and entry_level is as before. The work is that of all calls that are made, a missing entry is stored exactly if its generator did not fail, and the call fails exactly if its generator did. |
| EntryLevel.QuietWork | apc_cache.c:1330-1344 | If nothing throws, the work is one piece for each hit and each other function, and two for each missing entry besides those of its generator. |
| EntryLevel.FailingStoresNothing | apc_cache.c:1330-1344 | A missing entry is looked for first and stored last; if its generator fails, less is done. |
| EntryLevel.CaughtIsHarmless | apc_cache.c:1338-1344 | A failure in a nested call that is caught makes no difference to the caller. |
| EntryLevel.UncaughtEndsGenerator | apc_cache.c:1338-1344 | One that is not caught makes the caller fail, and nothing behind it is done. |
| EntryLevel.Thread.Lock | apc_cache.h:292-310 | The real lock is taken only at level 0, and never twice. |
| EntryLevel.SingleFlight | apc_cache.c:1315-1354 | If no process asks for a missing key while it is generating it, at most one generator for the key completes, none if the key was there; then every later call hits. |
| EntryLevel.SingleFlightIff | apc_cache.c:1330-1344 | Beginning a call can lead to a second completion exactly if the process is already generating that same missing key. |
| EntryLevel.RecursiveCallRunsTwice | apc_cache.c:1330-1344 | The generator of a missing key that asks for that key: two generators complete. |

## Left out

- Operating system calls, signals, access rights, and the POSIX, spinlock and fcntl variants of the lock; memory-ordering details and spin tuning.
- Liveness of the lock beyond what `Lock.WriterMayEnterIff` and `Lock.RecoverableIffPublished` say; repair of cache data after a writer died in the middle of a change (the source repairs nothing, so the cache part is about runs without crashes).
- Cache.Cache.Store: of what other processes do between allocation, insertion and release, only their expunges are in the method; the single steps are steps of a run in `History`, where everything may come in between. Slam defense is not modelled.
- Cache.Cache.Fetch: nothing comes between lookup and release in the method; `References.FetchAmidst` has the other operations.
- Cache.Cache.TryNew, Cache.Cache.FreeUnlinked, Cache.Cache.Release: in the source they run without the lock of the cache, under the allocator's own lock or as one atomic step, and may also fall inside a locked section of another process, such as a gc that is just looking at the reference count. Here, and in the runs, they come between the operations.
- Cache.Cache.NewEntry: of what other processes do while it waits, only their expunges are in the method, and they use the same clock; that others allocate or clear in between is left to the runs in `History`. Locks that are not granted are in this method and in `Cache.Cache.Store`; the other methods have theirs.
- Cache.Cache.DefaultExpunge: the product of the smart parameter and the size does not overflow, and the clock does not advance during the operation.
- Cache.Cache.constructor: an allocation failure at startup, which is a fatal error in the source.
- SharedMemory.Sma.constructor: segments smaller than a header and three blocks; a setting below one megabyte is read as so many megabytes, so they do not arise.
- Copy.NextFree: integer keys are below the largest zend_long, so the next free key does not wrap around.
- Persist.Sizing.CalcVal: the memo is always kept, while the source keeps it only if the value is an array; any other value that is copied is a single string, so there is nothing to meet twice. Indirect buckets of the symbol table, which also lead to serialization, do not occur.
- RoundTrip.Store: memory for the entry is granted (`Cache.Cache.NewEntry` says when), and what a serializer makes of a value is a parameter.
- Lifecycle.StoreDefragmentFetch: how the structures of an image look as bytes is a parameter, a partial function with an inverse.
- Iterator.Iterator.FetchActive: constructing an item does not fail, and items keep the whole record instead of a selection of its fields.
- The deleted-list iterator: it skips one entry more than it has seen and does not empty its stack, so it does not visit each entry once.
- `apc_cache_update` with the write lock, `apc_cache_exists`, preload, info and stat arrays, INI settings and argument parsing: the same lookups again, or plumbing.
- The handshake between creating and attaching processes, and the bounds check on an attached header.
- Internals of the hash part of PHP arrays, apart from its size.
