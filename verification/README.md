# Proofs about the RT-Thread kernel and jsmn

This project models, in Dafny, the parts of the vendored RT-Thread kernel and of the jsmn JSON tokenizer whose
correctness is a property of many functions together, and proves those properties for every input and every run.

| files | what they model |
|---|---|
| `Lists`, `Contents` | sequences as the kernel's intrusive lists; memory contents and `rt_memcpy` |
| `PriorityInheritance`, `InheritedPriority`, `MutexRuns` | mutexes with nested priority inheritance, and runs of threads that use them |
| `Jsmn`, `JsmnGrammar`, `JsmnProperties` | the JSON tokenizer, the grammar of RFC 8259, and what holds for any input |
| `BlockLayout`, `SmallMemLayout`, `SmallMem` | the first-fit heap with headers inside the heap |
| `MemHeapLayout`, `MemHeapSteps`, `MemHeap` | the heap with a block ring and a separate free list |
| `SlabPages`, `SlabZones`, `SlabView`, `Slab` | the page-run allocator and the slab of zones on top of it |
| `Wakeups`, `MessageCells`, `MessageMoves`, `MessageQueue`, `Mailbox`, `Events` | blocking queues, mailboxes and event objects |
| `Bits`, `ReadyBitmap`, `ReadyTable`, `Scheduler`, `SmpScheduler` | find-first-set, the ready tables, the uniprocessor and the multiprocessor scheduler |

## What is proved

**Mutexes.** The code keeps only local equations: a thread's priority is the minimum over its own and the mutexes it
holds, a mutex's priority is that of its first waiter. Takes, releases, ceilings and drops re-establish them (`Valid`),
and from them the global statement follows: without deadlock a thread's priority is exactly the minimum over everything
transitively blocked on it, and even with deadlock it is never less urgent than anything blocked on it. In every state
of a run a thread is suspended exactly while it is queued, and whoever is handed a mutex can run and hand it on. The
chain update ends on every wait-for graph, cycles included. Three conditions are exact. A wait keeps the system free of
deadlock if and only if the owner does not already wait, directly or not, for the caller. A release that hands the mutex
over keeps the priorities exact if and only if the ceiling is not more urgent than the new owner: the hand-over code
never applies the ceiling to the new owner, and a run of two takes and a release shows it.

The third is about waits that fail. The timer takes the waiter off the list in one critical section, and the waiter
corrects the priorities in another one, when it runs again; in between other threads take, wait and release. In the
whole of such a run nobody is ever less urgent than anything blocked on it. The correction leaves the owner exact if and
only if the owner is as urgent as the thread whose wait failed, or has a priority that is still asked for by its initial
priority, another mutex it holds, the ceiling or the first remaining waiter. That is so when nothing has run in between;
but a thread that was raised in between leaves an owner with a priority that nobody asks for, which even the release of
the mutex does not take back, and when the owner has released the mutex in between the code reads a null owner. A run
for each shows it. In a run without such a correction, once all failed takes have been ended, every thread has the
minimum over the initial priorities of everything transitively blocked on it.

**jsmn.** The parser recovers nesting by scanning its token array backwards. For every text of the RFC 8259 grammar it
produces the preorder flattening of the tree. For any input at all, success means well-matched brackets and nested or
disjoint spans, and each error has its reason: which of the three a run stops with is told by the text at that place.
Growing the token array after a shortage gives the run with the large array from the start, and the counting run counts
what the filling run fills.

**Small heap.** The heap is one array of words with the headers in it. The layout is determined by the live blocks
alone, so each operation is specified by what it does to the set of live blocks, and freeing what was just allocated
restores the layout word for offset. Allocation is complete first fit; in bytes, what it hands out holds the request and
is cut exactly when the rest makes another block; reallocation keeps the common prefix and leaves every other payload
alone.

**Memheap.** The block ring and the free ring are two linked structures over the same headers. In every state of every
run the blocks tile the pool, the free ring holds exactly the free blocks, no two neighbours are free, the available
size is the sum of the free payloads, and the maximum bounds all past use. Each operation, through all four merge cases,
splitting, growing and shrinking in place, replaces one stretch of blocks, and its contract says which. The availability
test is strict, so a block that fits is refused if and only if it is all there is and has exactly the size asked for.

**Slab.** The run list is a function of the set of free pages, so an allocation and its release restore it exactly. A
zone's free count is its never-used chunks plus its free list, zones are listed if and only if they have a free chunk,
the page table leads from every live address to its zone or its page count, live allocations do not overlap, and `used`
is their sum. A request is refused if and only if no zone of its size has a free chunk, no whole zone is free and there
are no pages for another zone; reallocation carries the content over and touches nothing else that is live.

**Queues, mailboxes, events.** The message queue is a set of steps between which any other thread runs. Its cells are
conserved, every run is one of a double-ended queue with at most one move for each step, into which each message goes as
it was sent, and no thread sleeps while there is something for it that no already resumed thread will take. Waiters are
resumed first in, first out, or the most urgent one first, as the flag says. For events, an AND waiter stays exactly
while a wanted bit is missing and an OR waiter while all are, and waiting before sending and receiving after sending are
the same for any number of waiters.

**Schedulers.** Bitmap, lists and states agree and the best ready thread runs; among equals the running thread goes on
unless it yields, and then the head of the list takes over. The two versions of `__rt_ffs` agree on every word. On
several processors no thread is current twice, no current thread is in a list, every ready thread is in exactly one
list, and the lock is held exactly when the current thread of some CPU counts on it, through switches that take it on
one thread and drop it on another.

## Model

| member | source | states |
|---|---|---|
| PriorityInheritance.Kernel.Enqueue | rt-thread/src/ipc.c:127-180 | the thread goes behind every waiter at least as urgent and before the others, who keep their order |
| PriorityInheritance.EnqueuedSorted | rt-thread/src/ipc.c:143-180 | insertion keeps the wait list sorted, and its head is the most urgent waiter |
| PriorityInheritance.Kernel.GetMutexPriority | rt-thread/src/ipc.c:765-785 | the minimum of the thread's own priority and, per held mutex, the more urgent of its first waiter and its ceiling |
| PriorityInheritance.Kernel.RefreshPriority | rt-thread/src/ipc.c:747-762 | a mutex takes the priority of its first waiter, or 0xff without one |
| PriorityInheritance.Kernel.UpdatePriority | rt-thread/src/ipc.c:788-836 | from any state in which it is one thread's turn, the chain update leaves nobody due, ends on every wait-for graph, and moves only threads and waiters downstream; when everybody else was exact everybody is, and priorities move one way |
| PriorityInheritance.Kernel.Take | rt-thread/src/ipc.c:1161-1266 | every branch of a take up to the point where the caller is scheduled away keeps all local equations, and all that hold in the middle of failing waits; each status if and only if the owner, the caller and `wait` are as the code asks, and who owns the mutex, how often, and who waits afterwards |
| PriorityInheritance.Kernel.Expire | rt-thread/src/thread.c:127-156 | the waiter is on no list, not suspended and waits for nothing; nobody's priority changes, and all equations still hold but that of this mutex, which may cache a more urgent waiter than it has |
| PriorityInheritance.Kernel.Finish | rt-thread/src/ipc.c:1293-1334 | the end of a failed take, whatever has run since the expiry: without an owner it reads null; else the mutex caches its first waiter again, nobody is less urgent than asked, and the owner is exact if and only if it is as urgent as the thread or its priority is still asked for |
| PriorityInheritance.RefreshedDemand | rt-thread/src/ipc.c:1305-1322 | with the mutex corrected the owner is exact if and only if its initial priority, another mutex it holds, the ceiling or the first remaining waiter asks for the priority it has |
| PriorityInheritance.LeaverRestores | rt-thread/src/ipc.c:1301-1303 | when nothing has run since the waiter was unlinked, the condition for an exact owner holds, although the owner is only updated when it is as urgent as the waiter |
| PriorityInheritance.Kernel.WaitFails | rt-thread/src/ipc.c:1293-1334 | when nothing runs between the expiry and the end of the take, the thread is on no list and every priority is exact again |
| PriorityInheritance.Kernel.WaitFor | rt-thread/src/ipc.c:1246-1266 | a blocking take queues the caller and re-ranks only what is downstream of the owner, in one direction |
| PriorityInheritance.Kernel.Release | rt-thread/src/ipc.c:1404-1522 | a nested release counts down; the last one takes the mutex off its owner and frees it, or the first waiter owns it once, is not suspended any more and waits for nothing, while the others keep waiting in order; priorities stay as exact as they were if and only if the ceiling is not more urgent than the new owner |
| PriorityInheritance.PriorityWithoutIs | rt-thread/src/ipc.c:1450-1463 | the shortcut of the release leaves an exact owner exact without the mutex, and no owner less urgent than asked |
| PriorityInheritance.Kernel.SetCeiling | rt-thread/src/ipc.c:994-1020 | a changed ceiling re-ranks the owner and its chain exactly |
| PriorityInheritance.Kernel.DropThread | rt-thread/src/ipc.c:944-978 | on every wait-for graph, a dropped waiter is on no list and only threads downstream of the owner move; from an exact state every priority is exact again, and from any other the owner is under the condition for failed waits |
| PriorityInheritance.LeftDemand | rt-thread/src/ipc.c:951-953 | without the waiter the owner is owed no more urgency, and exactly the same if it was more urgent than the waiter |
| PriorityInheritance.TakenValid | rt-thread/src/ipc.c:1203-1240 | taking a free mutex keeps the priorities exact |
| PriorityInheritance.HandedValid | rt-thread/src/ipc.c:1443-1511 | the state after a hand-over is as exact as before if and only if the ceiling allows it, and off only at the new owner |
| PriorityInheritance.NobodyDue | rt-thread/src/ipc.c:805-836 | a thread that waits for nothing ends the chain |
| PriorityInheritance.LinkDue | rt-thread/src/ipc.c:805-836 | one link of the chain leaves only the next owner to update |
| InheritedPriority.NeverLessUrgentThanBlocked | rt-thread/src/ipc.c:788-836 | in every state, in deadlocks and in the middle of failing waits too, a thread is at least as urgent as every thread transitively blocked on it |
| InheritedPriority.InheritanceIsTransitive | rt-thread/src/ipc.c:765-836 | without deadlock a priority is the minimum of the own urgencies of the thread and of all threads transitively blocked on it |
| InheritedPriority.UrgencyIsInitial | rt-thread/src/ipc.c:765-785 | without ceilings the own urgency of a thread is its initial priority |
| InheritedPriority.TakeKeepsDeadlockFree | rt-thread/src/ipc.c:1246-1266 | after a blocking take and its chain update the system is free of deadlock if and only if the owner was not already behind the caller |
| InheritedPriority.FewerLinksKeepDeadlockFree | rt-thread/src/ipc.c:1161-1522 | taking a free mutex, releasing, handing over and giving up a wait never close a cycle |
| InheritedPriority.HandOverIsExact | rt-thread/src/ipc.c:1480-1487 | without ceilings every hand-over is exact |
| InheritedPriority.HandOverLosesCeiling | rt-thread/src/ipc.c:1480-1487 | there is a valid state without deadlock whose hand-over loses the ceiling |
| InheritedPriority.HandOverLosesCeilingRun | rt-thread/src/ipc.c:1161-1522 | two takes and a release lead from a fresh system to priorities that are not exact |
| MutexRuns.StepsDeadlock | rt-thread/src/ipc.c:1161-1522 | from a state without deadlock a call leads to a deadlock if and only if it is a wait that closes a cycle |
| MutexRuns.Step | rt-thread/src/ipc.c:1161-1522 | one call, an expiry and the end of a failed take being two; nobody becomes less urgent than asked, and a state that is exact but for mutexes with unfinished takes stays so if and only if the call is not the end of a take that leaves an owner with a priority nobody asks for |
| MutexRuns.Run | rt-thread/src/ipc.c:1161-1522 | any script of takes, tries, releases, expiries and ends of failed takes with ceilings at 0xff, up to its end or a null owner: in every state a thread is suspended if and only if it is on the wait list of the mutex it waits for, whoever owns a mutex is ready or waits for another one, and nobody is less urgent than whom it keeps waiting; if no call spoils exactness and no take is unfinished, then without deadlock every thread has the minimum of the unchanged initial priorities of the threads it keeps waiting and its own |
| MutexRuns.HandOnTwice | rt-thread/src/ipc.c:1404-1522 | who is handed a mutex can hand it on: one release each takes it down the wait list in order |
| MutexRuns.FailedWaitKeepsPriority | rt-thread/src/ipc.c:1301-1334 | a run in which a thread keeps an inherited priority with nobody waiting, even after it has released everything |
| MutexRuns.OwnerGone | rt-thread/src/ipc.c:1302-1302 | a run in which the end of a failed take finds no owner |
| Jsmn.Parser.AllocToken | applications/jsmn.c:6-20 | the next token, empty, or none when the array is full |
| Jsmn.Parser.ParsePrimitive | applications/jsmn.c:38-93 | one round on a primitive does what the step function says, with the position restored on errors |
| Jsmn.Parser.ParseString | applications/jsmn.c:98-173 | the same for a string: the closing quote, or an error at the first escape that is none, or the end of the text; JsmnProperties.StringKinds says which by the characters |
| Jsmn.Parser.Parse | applications/jsmn.c:180-373 | the loops compute the run of the step function, tokens, position, parent and result |
| JsmnGrammar.TokenizesJson | applications/jsmn.c:180-373 | every text of the grammar of RFC 8259, whose white space, short escapes and hex digits are spelled out (sections 2 and 7), is tokenized into the preorder flattening of its tree, with exact spans and child counts |
| JsmnProperties.RunNested | applications/jsmn.c:188-341 | at every step spans are nested or disjoint and starts increase |
| JsmnProperties.SuccessIsWellFormed | applications/jsmn.c:180-373 | for any input a successful parse has matched brackets, closed tokens and laminar spans, and returns the token count |
| JsmnProperties.StringKinds | applications/jsmn.c:98-173 | at any quote of any text a string is read to its closing quote, is cut off by the end, or has an escape that is none, told apart by the characters alone |
| JsmnProperties.PrimitiveKinds | applications/jsmn.c:38-93 | the same for a primitive: it goes to the first delimiter or the end, unless a character outside the printable range comes first |
| JsmnProperties.StopsBecause | applications/jsmn.c:180-373 | a run stops with JSMN_ERROR_PART, JSMN_ERROR_INVAL or JSMN_ERROR_NOMEM if and only if the text has come to an end inside a string or with an open token, has a string, primitive or bracket that cannot stand there, or needs a token with none left |
| JsmnProperties.Resume | applications/jsmn.c:75-92 | after a token shortage the run with a larger array goes on as if it had been larger from the start |
| JsmnProperties.GrowingIsOneRun | applications/jsmn.c:180-216 | any number of growths equals one run with the final array |
| JsmnProperties.CountAgrees | applications/jsmn.c:113-130 | a successful run with tokens returns what the run without tokens returns |
| BlockLayout.LayoutIsDeterminedByLiveBlocks | rt-thread/src/mem.c:126-164 | two coalesced layouts with the same live blocks are the same layout |
| BlockLayout.NothingLive | rt-thread/src/mem.c:212-236 | with nothing live the heap is one free block |
| BlockLayout.AlignedCovers | rt-thread/src/mem.c:303-304 | the aligned size covers the request if and only if the 32-bit addition does not wrap |
| SmallMemLayout.AbsorbLinked | rt-thread/src/mem.c:133-163 | joining two blocks leaves all headers agreeing |
| SmallMemLayout.CutLinked | rt-thread/src/mem.c:338-357 | cutting a block leaves all headers agreeing |
| SmallMemLayout.ServedOr | rt-thread/src/mem.c:293-406 | in bytes, for a size whose alignment does not wrap: null if and only if no free block holds it; else the lowest that does gives a new block that holds the request and is cut exactly when the rest makes another block |
| SmallMemLayout.ResizedIs | rt-thread/src/mem.c:421-505 | in bytes, for the same sizes: in place when the size fills the block or leaves room for another one, else a move to the lowest block that holds it, if there is one |
| SmallMem.SmallHeap.constructor | rt-thread/src/mem.c:212-241 | the initial heap is one free block |
| SmallMem.SmallHeap.Split | rt-thread/src/mem.c:338-357 | the cut writes headers only where no payload lies |
| SmallMem.SmallHeap.PlugHoles | rt-thread/src/mem.c:126-164 | afterwards no two neighbours are free, and nothing live has moved |
| SmallMem.SmallHeap.Alloc | rt-thread/src/mem.c:278-406 | null if and only if no free block holds the request, in bytes when its alignment does not wrap, else the lowest that does; the block handed out is new and holds the request, cut exactly when the rest makes another block; `used` grows by the block; every payload stays |
| SmallMem.SmallHeap.Search | rt-thread/src/mem.c:315-323 | the walk from lfree finds the first fit of the whole heap |
| SmallMem.SmallHeap.Free | rt-thread/src/mem.c:515-557 | exactly one block stops being live, `used` shrinks by it, and every other payload stays |
| SmallMem.SmallHeap.Realloc | rt-thread/src/mem.c:421-505 | each branch's effect on the live blocks, and in bytes when the alignment does not wrap: the block behind the result holds the new size; the common prefix moves along, other payloads stay, failure changes nothing |
| Contents.Copy | rt-thread/src/mem.c:499-499 | the copied cells, and nothing else |
| SmallMem.SmallHeap.Store | rt-thread/src/mem.c:278-406 | a client that writes inside its own payload keeps the heap valid |
| SmallMem.SmallHeap.AllocThenFree | rt-thread/src/mem.c:278-557 | an allocation and its release restore layout, lowest free block and accounting |
| SmallMem.SmallHeap.Run | rt-thread/src/mem.c:278-557 | every run keeps the heap valid, and each request gives, takes back or replaces one pointer; a run that has released everything leaves one free block and nothing used |
| MemHeapLayout.RingSplice | rt-thread/src/memheap.c:259-262 | when blocks give way to others in one stretch and the node behind points back to the last of them, the ring agrees with the blocks again |
| MemHeapLayout.CutRing | rt-thread/src/memheap.c:259-262 | cutting a block relinks the ring around the new node |
| MemHeapLayout.JoinRing | rt-thread/src/memheap.c:661-684 | taking in the successor relinks the ring past its node |
| MemHeapLayout.UnlinkedRing | rt-thread/src/memheap.c:265-266 | unlinking keeps the free list a ring in the same order |
| MemHeapLayout.PushedRing | rt-thread/src/memheap.c:271-274 | a block linked in behind the header is the first of the free list |
| MemHeapLayout.Reshaped | rt-thread/src/memheap.c:184-714 | replacing one stretch of blocks keeps tiling, coalescing, free list and available size |
| MemHeapSteps.Carved | rt-thread/src/memheap.c:229-306 | exactly one new block is live; free list and available size follow |
| MemHeapSteps.Freed | rt-thread/src/memheap.c:646-714 | in each of the four merge cases exactly the freed block stops being live, and free list and available size follow |
| MemHeapSteps.Recutted | rt-thread/src/memheap.c:434-590 | a block cut anew, into the free block behind it or out of itself, keeps the shape |
| MemHeapSteps.ServedOr | rt-thread/src/memheap.c:184-347 | in bytes, for a size whose alignment does not wrap: null if and only if no free block holds it or all that is available is asked for; else the block is new, holds the request, and is cut exactly when the rest makes another block |
| MemHeapSteps.ResizedIs | rt-thread/src/memheap.c:362-590 | in bytes, for the same sizes: when the block stays, grows, shrinks or moves, and that it holds the new size afterwards |
| MemHeapSteps.RefusedThoughFits | rt-thread/src/memheap.c:201-201 | a block that fits is refused if and only if the request is exactly its size and all that is available |
| MemHeapSteps.WholeHeapRefused | rt-thread/src/memheap.c:201-201 | a fresh heap refuses a request for all of it |
| MemHeapSteps.InitialIs | rt-thread/src/memheap.c:86-88 | the available size of a new heap is right if and only if the region has room for two headers, else it is larger than the region |
| MemHeapSteps.GrowTestIsRight | rt-thread/src/memheap.c:434-434 | the test for growing in place says whether the room is enough if and only if its 32-bit sum does not wrap |
| MemHeapSteps.GrowTestFails | rt-thread/src/memheap.c:434-434 | a size for which it wraps and the test passes |
| MemHeap.MemHeap.constructor | rt-thread/src/memheap.c:75-148 | one free block, the used tailer behind it, exact accounting |
| MemHeap.MemHeap.Find | rt-thread/src/memheap.c:217-227 | the walk ends at the first block of the free list that is large enough, or there is none |
| MemHeap.MemHeap.Alloc | rt-thread/src/memheap.c:184-347 | null if and only if nothing holds the request in bytes or all available words are asked for; else the first fit of the free list, cut or whole: a new block at least as large as the request, and less than max(size + 8, 4 * MINI) + 4 * (HEADER + MINI) bytes large; new free list and maximum |
| MemHeap.MemHeap.Free | rt-thread/src/memheap.c:598-728 | exactly this block stops being live |
| MemHeap.MemHeap.Merge | rt-thread/src/memheap.c:646-714 | which blocks become one, and where the result is on the free list |
| MemHeap.MemHeap.Grow | rt-thread/src/memheap.c:434-500 | the block behind is taken in and cut where the new size ends |
| MemHeap.MemHeap.Shrink | rt-thread/src/memheap.c:522-589 | the cut-off end is free, joined with a free block behind it |
| MemHeap.MemHeap.Realloc | rt-thread/src/memheap.c:362-590 | each branch's effect on blocks and live blocks, and in bytes when the alignment does not wrap: the block behind the result holds the new size; the content moves along, other payloads stay, failure changes nothing |
| MemHeap.MemHeap.Run | rt-thread/src/memheap.c:184-728 | every run keeps the heap valid, and each request gives, takes back or replaces one pointer; a run that has released everything leaves one free block |
| SlabPages.RunsAreDeterminedByPages | rt-thread/src/slab.c:252-294 | two sorted, coalesced run lists with the same free pages are the same list |
| SlabPages.PagePool.Alloc | rt-thread/src/slab.c:211-243 | the lowest pages that fit; none if and only if no such pages are free |
| SlabPages.PagePool.Seek | rt-thread/src/slab.c:261-292 | the walk of a release stops at the run the pages touch, or at their place |
| SlabPages.PagePool.Release | rt-thread/src/slab.c:252-294 | exactly these pages become free, and the list stays sorted and coalesced |
| SlabPages.PagePool.AllocThenRelease | rt-thread/src/slab.c:211-294 | releasing what was just allocated restores the list |
| SlabZones.ZoneIndexIs | rt-thread/src/slab.c:406-464 | the index determines the chunk size, which holds the request and wastes less than an eighth from 128 bytes up |
| SlabZones.ChunksApart | rt-thread/src/slab.c:561-574 | two chunks of a zone do not overlap |
| SlabZones.StartedValid | rt-thread/src/slab.c:616-641 | a zone that starts over has at least two chunks behind its header, as many as fit, and keeps the zone rules |
| SlabZones.PopValid | rt-thread/src/slab.c:545-574 | the chunk taken was not live, whether new or from the free list |
| SlabView.LiveApart | rt-thread/src/slab.c:485-851 | no two live allocations overlap |
| SlabView.TableFinds | rt-thread/src/slab.c:763-788 | the page table leads from a live address to its zone, or to its page count |
| SlabView.TookValid | rt-thread/src/slab.c:543-582 | handing out a chunk keeps all invariants; a zone that becomes full leaves its list |
| SlabView.PutValid | rt-thread/src/slab.c:790-805 | taking a chunk back keeps them; a zone that was full returns to its list |
| SlabView.RetiredValid | rt-thread/src/slab.c:813-826 | an all-free zone moves from its list to the free zones |
| SlabView.ReusedValid | rt-thread/src/slab.c:588-650 | a free zone starts over for any chunk size |
| SlabView.ReleasedValid | rt-thread/src/slab.c:829-849 | a zone's pages go back, and nothing live was in them |
| SlabView.TookLargeValid | rt-thread/src/slab.c:500-527 | pages become a large allocation |
| SlabView.PutLargeValid | rt-thread/src/slab.c:764-784 | and free pages again |
| Slab.LiveAligned | rt-thread/src/slab.c:623-629 | live chunks whose size is a power of two up to a page are aligned to it |
| Slab.ListEmpty | rt-thread/src/slab.c:543-543 | an empty list and no free zone mean that no zone of the index has a free chunk, and the other way round |
| Slab.NothingLive | rt-thread/src/slab.c:734-851 | with nothing live nothing is counted and every zone is all free |
| Slab.Init | rt-thread/src/slab.c:319-379 | no heap if and only if the region has no whole page behind the slab object, else an empty heap of all its whole pages |
| Slab.HeapInRegion | rt-thread/src/slab.c:325-338 | the slab object lies at the first multiple of 8 of the region, the heap begins at the first page behind it and ends with the last whole page of the region |
| Slab.SlabHeap.constructor | rt-thread/src/slab.c:340-379 | zone size and limit; all pages but the page table are free |
| Slab.SlabHeap.Alloc | rt-thread/src/slab.c:485-651 | none if and only if size is zero or memory of that size is exhausted; else a new live address with its chunk or pages, which hold the request and less than 8 bytes, an eighth or a page more; a new zone is made only if no zone has a chunk and none is free; exact statistics |
| Slab.SlabHeap.Unlink | rt-thread/src/slab.c:815-817 | the walk takes exactly this zone off its list |
| Slab.SlabHeap.Free | rt-thread/src/slab.c:734-851 | exactly this address stops being live, and its size leaves `used`; the pages of an empty zone stay while few empty zones are kept |
| Slab.SlabHeap.Realloc | rt-thread/src/slab.c:665-722 | same chunk, move or failure, and when each; content carried over, other live bytes untouched |
| Slab.SlabHeap.Run | rt-thread/src/slab.c:485-851 | every run keeps the heap well formed, and each request gives, takes back or replaces one address; a run that has released everything leaves only empty zones |
| Wakeups.Line.ResumeServes | rt-thread/src/ipc.c:205-221 | one unit more and one thread resumed lose no wakeup |
| Wakeups.Line.TakeServes | rt-thread/src/ipc.c:3653-3724 | whoever takes a unit, resumed for it or not, loses no wakeup |
| Wakeups.FirstInFirstOut | rt-thread/src/ipc.c:127-221 | with the FIFO flag those who have been resumed are the ones who were suspended first, after any operations |
| Wakeups.MostUrgentFirst | rt-thread/src/ipc.c:143-180 | with the PRIO flag nobody who waits is more urgent than the one who is resumed |
| Wakeups.ResumeMeans | rt-thread/src/ipc.c:205-221 | the first waiter is off the list and on its way, everybody else is where he was |
| MessageCells.RoomToLink | rt-thread/src/ipc.c:3352-3361 | while a thread holds a cell the queue counts fewer messages than cells |
| MessageCells.LinkLastChains | rt-thread/src/ipc.c:3339-3349 | linking behind the tail appends to the queue chain and leaves the free chain and the cells in hand |
| MessageQueue.Queue.constructor | rt-thread/src/ipc.c:2935-2965 | all cells are free, none queued |
| MessageQueue.Queue.BeginSend | rt-thread/src/ipc.c:3212-3301 | a sender takes the first free cell, waits, or returns; nothing queued changes |
| MessageQueue.Queue.Fill | rt-thread/src/ipc.c:3303-3309 | writing the private cell disturbs neither chain nor any other thread |
| MessageQueue.Queue.Link | rt-thread/src/ipc.c:3311-3379 | the filled message becomes the last, an urgent one the first, one receiver is resumed, and the overflow return is never taken |
| MessageQueue.Queue.BeginRecv | rt-thread/src/ipc.c:3606-3702 | a receiver takes the first message, waits, or times out |
| MessageQueue.Queue.CopyOut | rt-thread/src/ipc.c:3704-3710 | the buffer gets the message that was unlinked, cut to its size, whatever ran in between |
| MessageQueue.Queue.GiveBack | rt-thread/src/ipc.c:3717-3744 | the cell becomes free and one sender is resumed |
| MessageQueue.Queue.Reset | rt-thread/src/ipc.c:3807-3860 | nothing is queued, nobody waits, cells in hand stay in hand |
| MessageQueue.Queue.Run | rt-thread/src/ipc.c:3180-3860 | any interleaving keeps the queue valid and is a run of a double-ended queue, at most one move for each step: a message goes to the back, or to the front if it was sent as urgent, when its sender links it, a receive takes the one that is first then, a reset drops all |
| MessageMoves.NothingLost | rt-thread/src/ipc.c:3180-3745 | without resets, urgent sends or not, every linked message has been received once or is still there |
| MessageMoves.FirstInFirstOut | rt-thread/src/ipc.c:3180-3745 | without urgent sends and resets messages are received in the order of linking |
| Mailbox.Box.Send | rt-thread/src/ipc.c:2353-2491 | the mail becomes the last one, or the sender waits or returns; one receiver is resumed |
| Mailbox.Box.Urgent | rt-thread/src/ipc.c:2567-2626 | the mail becomes the first one |
| Mailbox.Box.Recv | rt-thread/src/ipc.c:2648-2785 | the first mail, in order; one sender is resumed |
| Mailbox.Box.Reset | rt-thread/src/ipc.c:2819-2850 | no mail, nobody waiting |
| Mailbox.RingPrepend | rt-thread/src/ipc.c:2589-2600 | stepping the output offset back puts the mail in front |
| Mailbox.Box.Run | rt-thread/src/ipc.c:2353-2850 | after any run no wakeup is lost; without resets every mail is received once or still there, and without urgent mails they come in order |
| Events.Event.Send | rt-thread/src/ipc.c:1763-1850 | the scan of the wait list: who is resumed, with which bits; afterwards every AND waiter on the list misses a wanted bit and every OR waiter all of them |
| Events.Event.Recv | rt-thread/src/ipc.c:1889-2019 | with the AND flag at once if and only if every wanted bit is set, with OR alone if and only if some is: with exactly the wanted bits that were set, and cleared if asked; else wait or return; nobody on the list becomes satisfied |
| Events.MetIs | rt-thread/src/ipc.c:1797-1817 | bit by bit, what the AND and the OR flag ask for |
| Events.NobodyMissed | rt-thread/src/ipc.c:1787-1842 | whoever stays on the list misses a bit of what is left, all of them with OR, whatever was cleared after him |
| Events.SendThenRecvIsRecvThenSend | rt-thread/src/ipc.c:1763-2019 | for any waiters, sending to them equals sending first and letting each receive in order: same bits, same set left |
| Events.ScanDelivers | rt-thread/src/ipc.c:1787-1842 | a send gives each thread it resumes at least one bit it wants, out of the set, and loses no waiter |
| Events.Event.Run | rt-thread/src/ipc.c:1763-2019 | after any run nobody waits for what is there, every delivery hands out bits, and only bits that were sent |
| Bits.FfsTableIsCtz | rt-thread/src/kservice.c:1917-1974 | the byte-table version returns the number of the least one bit |
| Bits.LowestBitAlone | rt-thread/src/kservice.c:1914-1917 | value & (value - 1) ^ value is the least one bit alone |
| Bits.FfsVersionsAgree | rt-thread/src/kservice.c:1890-1974 | the version modulo 37 returns the same for every word |
| ReadyBitmap.Bitmap.FirstIsLeast | rt-thread/src/scheduler_up.c:141-163 | one- or two-level, the bitmap yields the best marked priority |
| ReadyBitmap.Bitmap.MarkIs | rt-thread/src/scheduler_up.c:391-395 | marking adds exactly this priority |
| ReadyBitmap.Bitmap.UnmarkIs | rt-thread/src/scheduler_up.c:424-434 | unmarking removes exactly this priority |
| ReadyTable.Table.InsertIs | rt-thread/src/scheduler_up.c:373-395 | insertion keeps bitmap and lists in agreement |
| ReadyTable.Table.RemoveIs | rt-thread/src/scheduler_up.c:420-434 | removal keeps bitmap and lists in agreement |
| Scheduler.Scheduler.InsertThread | rt-thread/src/scheduler_up.c:356-400 | front or back of the right list, or only marked running when current |
| Scheduler.Scheduler.RemoveThread | rt-thread/src/scheduler_up.c:408-438 | off its list, a no-op for a thread in no list |
| Scheduler.Scheduler.Schedule | rt-thread/src/scheduler_up.c:224-346 | with nobody strictly more urgent a running thread that has not yielded goes on and nobody moves; else the head of the best list runs and the other is the front of its own list if it still ran; with somebody ready nobody ready is more urgent than the current thread |
| Scheduler.Scheduler.ExitCritical | rt-thread/src/scheduler_up.c:464-490 | leaving the outermost section catches up on scheduling, with the same decision |
| Scheduler.Scheduler.ChangePriority | rt-thread/src/thread.c:847-880 | a ready thread leaves its list and joins the new one, at the end if it has used up its time and else in front; the others stay |
| Scheduler.Scheduler.Yield | rt-thread/src/thread.c:582-595 | an equal at the head of the best list runs, and the yielder is the front of that list |
| Scheduler.Scheduler.YieldTwice | rt-thread/src/scheduler_up.c:259-274 | after the first of two yields in a row the head of the list runs, after the second the first thread is back and the lists are as before: the others of the priority never move up |
| SmpScheduler.Smp.SafetyMeans | rt-thread/src/scheduler_mp.c:266-652 | no thread current twice, no current thread listed, each ready thread in exactly one list, the lock held exactly when a current thread counts on it |
| SmpScheduler.PickIs | rt-thread/src/scheduler_mp.c:139-155 | with one or two levels a table yields its best priority, and an empty one something beyond all priorities, whatever byte lies in front of its second table |
| SmpScheduler.Smp.InsertThread | rt-thread/src/scheduler_mp.c:509-590 | into the list of its priority, global or of its CPU, last if it has yielded and else first; a thread still on a CPU is only marked running |
| SmpScheduler.Smp.Highest | rt-thread/src/scheduler_mp.c:139-173 | the best over the global and the local table, the head of its list; of two equally urgent the local one |
| SmpScheduler.Smp.Choose | rt-thread/src/scheduler_mp.c:308-361 | the decision and the switch keep the system safe, the best eligible thread runs, and every thread is where the code puts it: a running thread that this CPU may run stays if it is more urgent than the head, or as urgent and has not yielded; else it is detached and back in its list, last if it has yielded |
| SmpScheduler.Smp.SwitchTo | rt-thread/src/cpu.c:250-262 | the lock passes to the thread switched to, or is released if that thread does not count on it |
| SmpScheduler.Smp.Schedule | rt-thread/src/scheduler_mp.c:266-393 | a voluntary schedule keeps the system safe and decides like that; a running thread that has not yielded stays while nobody eligible is more urgent; in an interrupt it only raises the flag, and a locked scheduler changes nothing |
| SmpScheduler.Smp.IrqSwitch | rt-thread/src/scheduler_mp.c:400-499 | so does a switch at the end of an interrupt, which also gives back its own count |
| SmpScheduler.Smp.CpusLock | rt-thread/src/cpu.c:195-217 | one count of the lock more, and one of the scheduler for the first; the CPU holds the lock |
| SmpScheduler.Smp.CpusUnlock | rt-thread/src/cpu.c:224-240 | one count less; the last gives back the scheduler and releases |
| SmpScheduler.Smp.EnterCritical | rt-thread/src/scheduler_mp.c:657-697 | one count of the section, the lock and the scheduler more, two of the scheduler for the first; the CPU holds the lock |
| SmpScheduler.Smp.ExitCritical | rt-thread/src/scheduler_mp.c:701-740 | leaving it gives the counts back, releases with the last, and goes on to schedule exactly when nothing else locks the scheduler |
| SmpScheduler.Smp.Step | rt-thread/src/scheduler_mp.c:266-740 | one region of one CPU: the system stays safe, and if the lock and the counts let the CPU take it the region does what it is for |
| SmpScheduler.Smp.Run | rt-thread/src/scheduler_mp.c:266-740 | the system is safe after every sequence of regions of any CPUs |

## Left out

- Threads and mutexes are rows of two tables indexed by numbers, not heap objects; pointer aliasing is not modelled.
- PriorityInheritance.Kernel.Take: ends where the caller is scheduled away; a wait that fails goes on in
  PriorityInheritance.Kernel.Expire and PriorityInheritance.Kernel.Finish.
- PriorityInheritance.Kernel.WaitFails: for a wait after whose expiry nothing else runs; MutexRuns.Run has the two
  regions apart.
- PriorityInheritance.Kernel.Finish: nothing is said about what happens after the read through a null owner.
- PriorityInheritance.Kernel.Expire: clears the pending object, which the source leaves set after a failed take. It
  looks at it when the thread is suspended, for whatever reason, or is deleted; a thread that waits for something other
  than a mutex, or is deleted, with such a stale object is not modelled.
- PriorityInheritance.Kernel.DropThread: one region with its callers. `rt_thread_detach` and `rt_thread_delete` take the
  thread off its list before they disable interrupts (rt-thread/src/thread.c:426-432). A boost of the thread in that
  window, which links it again, is undone because the drop unlinks it once more; an owner that has released the mutex
  meanwhile, so that the drop reads a null owner, is not modelled.
- `rt_mutex_detach`, which does not restore the owner's priority, and signals.
- PriorityInheritance.Kernel.UpdatePriority: the wait list of an object that is not a mutex is not re-sorted, as in the
  source.
- jsmn: the strict and the parent-link builds; texts of 2^31 characters and more, where `int` positions wrap; texts are
  sequences of characters rather than bytes.
- SmallMem.SmallHeap.constructor: starts from the number of words between the aligned ends; the address arithmetic of
  `rt_smem_init` is not modelled. Names, `memtrace` and the heap lock neither.
- MemHeap.MemHeap.constructor: for regions with room for two headers. The source does not check this, and below it the
  available size wraps (MemHeapSteps.InitialIs).
- MemHeap.MemHeap.Realloc: not for a block with a free block behind it and a size of which the sum with the minimum
  wraps on 32 bits; there the test passes without the room (MemHeapSteps.GrowTestIsRight). Headers are kept in a table
  beside the payload words, which belong to clients alone.
- MemHeap.MemHeap.Free: magic numbers, the pool pointer, the best-fit build and the semaphore are not modelled.
- Slab.SlabHeap.Free: zone headers and free-chunk links are fields beside the payload bytes.
- Slab.LiveAligned: relative to the start of the heap, and up to the page size; zones are only page aligned.
- MessageQueue.Queue.Link: the copy of a message is one step between two critical sections; timers, `rt_schedule` after
  a call and the build with message priorities are not modelled.
- Events: the 32 event bits are a set of numbers; the timer of a timed wait is a time-out step.
- Scheduler.Scheduler.Schedule: hooks, stack checks and signals; no rotation among equals is claimed, since a yield puts
  the thread back at the front of its list (Scheduler.Scheduler.YieldTwice).
- SmpScheduler.Smp.Run: from the state in which every CPU has started; an inter-processor interrupt is any CPU stepping
  at any time.
- SmpScheduler.Smp.Resume: one region under the caller's lock. Without it `rt_thread_resume` looks at the state before
  it takes the lock and inserts the thread in a second region, between which other CPUs may step.
- SmpScheduler.Smp.CpusUnlock: only while the thread holds the lock beyond its critical sections; unbalanced unlocking
  is a caller's error.
- Memory pools, signals, semaphores, the object list, strings and printf repeat these techniques or are unused here.
- Drivers, board code and the payment application.
