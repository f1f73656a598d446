# A verified model of the OBOS kernel's core

OBOS is a kernel written in C. This project models nine of its components in Dafny
4.11, each with the state it keeps and the loops it runs, and proves what holds of them
for every input, every run or every reachable state. `dafny verify dfyconfig.toml`
checks everything. The statements are proofs about the model; none of the kernel's code
is executed.

| component | files | kernel source |
|---|---|---|
| red-black tree | `RbShape`, `RbMem`, `RbTree` | `src/oboskrnl/utils/tree.h` |
| Robin Hood hash map | `RobinHood`, `HashMap`, `Bits`, `Options` | `src/oboskrnl/utils/hashmap.c` |
| scheduler | `SchedModel`, `SchedOps`, `SchedCore`, `SchedRun`, `SchedBase`, `SchedFate`, `SchedNext`, `SchedMoves`, `SchedTurns`, `SchedLinks`, `Scheduler`, `ThreadList` | `src/oboskrnl/scheduler/schedule.c`, `thread.c` |
| kernel heap | `HeapModel`, `Heap` | `src/oboskrnl/allocators/basic_allocator.c` |
| physical pages | `PhysPages`, `PhysMem`, `Bits` | `src/oboskrnl/mm/pmm.c` |
| page replacement | `Aging`, `WorkingSet` | `src/oboskrnl/mm/handler.c` |
| swap | `Swap` | `src/oboskrnl/mm/swap.c` |
| virtual addresses | `AddressSpace` | `src/oboskrnl/mm/alloc.c` |
| CRC-32 | `Crc32`, `CrcDivision` | `src/oboskrnl/gpt.c` |

## How the model is built

* **Red-black tree.** Nodes are heap objects with left, right and parent links and a
  colour. A ghost shape tells which tree the links make up; a zipper splits it at the node
  an operation works on, so that each store is shown to do to the shape what the operation
  is for. Every loop of the macros is a loop here, one round of it a method.
* **Hash map.** The bucket array is an array, a probe is a loop over it. `hash & mask` is
  modelled as such and shown to be the remainder. The hash is an arbitrary function of the
  key. The load factor is computed in the kernel's fixed-point arithmetic and stored in
  eight bits.
* **Scheduler.** Each operation of the class `Kernel` is proved to compute a function on
  states. A run is any sequence of steps by any number of CPUs. While a CPU is between
  blocking its own thread and switching away from it, it is named `busy`. Lists are
  sequences there; `SchedLinks` follows the links of the nodes through every run.
* **Heap.** A node is known by the address of its header. Headers and payloads together
  are the extents that must not overlap. Memory maps addresses to bytes. A store to a field
  of a node or region makes the bytes of its whole header unknown: that of the node itself,
  of its neighbours on the list it leaves, of the last node of the list it joins, and of the
  region. So a block keeps its bytes only if no header lies in it. What the page provider
  returns is an input.
* **Physical pages.** Memory is an array of pages, seen by the three words at the start of
  each, because the nodes of the free list live there. Sizes are 64-bit.
* **Page replacement and swap.** Which pages were touched, and which calls of the device,
  the page tables or the physical allocator fail, are inputs. `Swap` keeps the contents of
  frames and of the slots of all devices.
* **Virtual addresses.** The page tree is its in-order sequence, which is what `RbTree`
  shows the tree operations to act on. Addresses and sizes are 64-bit.
* **CRC-32.** The reference is the bit-serial shift register of section 8 of RFC 1952, and
  that of the register is the division of polynomials over the field of two elements.

Locks, interrupt levels, logging and profiling are not modelled; each operation is one
atomic step.

## Where the code falls short of what one would expect

Each of these is proved: an exact condition under which the code does meet the
expectation, and an input or a run on which it does not.

* The map's load factor, 15300, is stored in eight bits and becomes 196. The growth check
  then never fires, and setting a new key in a full table does not return
  (`HashMap.DefaultSetReturnsIff`). Sixteen sets in a new map lead there
  (`HashMap.SixteenSets`).
* Blocking a thread that another CPU runs leaves that CPU with a current thread that
  belongs to nobody (`SchedRun.BlockSafeIff`, `SchedFate.BlockedElsewhere`).
* A thread that is blocked while its priority is raised keeps the raised priority
  (`SchedBase.BaseIff`, `SchedFate.BlockedRaised`).
* `CoreH_ThreadListAppend` and the page allocator's `free` do not write the link to the
  next node, so the list is right only if that link was null before
  (`ThreadList.List.Append`, `PhysMem.AppendChainIff`). The scheduler only ever appends
  nodes with a null link (`SchedLinks.RunLinks`); a page that is freed holds what its user
  left in it (`PhysMem.StaleLink`).
* The alignment test of the page allocator looks at 32 of 64 bits, and a request of more
  than 2^52 pages can wrap around and succeed (`PhysPages.AlignedIff`,
  `PhysPages.OddAlignmentAccepted`, `PhysPages.ServedIff`, `PhysPages.WrappedRequest`).
* A heap request above 2^64 less four pages is not met by a new region: it opens regions for
  ever, or is given a block larger than its region, or one of no bytes
  (`HeapModel.FreshFitsIff`, `HeapModel.OpeningsIff`, `HeapModel.HugeRequests`).
* The hint of a heap region is not looked for again when the node it names is split, so a
  request can find no room although a free node of its size is there (`Heap.PassedIff`,
  `Heap.HintMisses`), and a block that shrinks where it is gives up bytes that no block gets
  again (`HeapModel.ResizeFootprint`).
* Growing a block when there is no memory copies it to address 0 and frees it
  (`Heap.Heap.Grow`, `Heap.GrowthLoses`).
* The kernel's comment on `Mm_RunPRA` says that the working set never exceeds its size, and
  an assertion there checks it. That holds exactly if the capacity is a whole number of pages
  or everything kept and referenced fits (`WorkingSet.WithinCapacityIff`,
  `WorkingSet.OverCapacity`).
* Swapping out a page that is out already loses its slot (`Swap.OutKeepsIff`,
  `Swap.TwiceBreaks`), and a page that cannot be unmapped is marked as not present although
  it is mapped (`Swap.StepAgreesIff`, `Swap.FlagLost`). Changing the swap device ignores
  refusals, errors and other contexts' pages (`Swap.MoveKeepsIff`): a page that cannot be read
  gets the contents of the page before it (`Swap.WrongContents`), and a slot that is not freed
  stays reserved with no page to it, also after changing back (`Swap.SlotLeftBehind`).
* The search for a free range does not look at the address-space limit
  (`AddressSpace.PickInLimitIff`, `AddressSpace.PickBeyondLimit`), a hint can be retried for
  ever (`AddressSpace.RetriesIff`, `AddressSpace.CanHangIff`), and a range that ends at or
  above 2^64 is reported as released without being so (`AddressSpace.FreeExactIff`,
  `AddressSpace.LastPageStays`).

## Model

| member | source | states |
|---|---|---|
| `RbTree.Head.RotateLeft` | src/oboskrnl/utils/tree.h:339-357 | A left rotation turns the linked tree at the node into its left rotation, wherever the node is, with all parent links right. |
| `RbTree.Head.RotateRight` | src/oboskrnl/utils/tree.h:359-377 | The mirror image: a right rotation turns the linked tree at the node into its right rotation. |
| `RbMem.RotLAt` | src/oboskrnl/utils/tree.h:339-357 | The stores of a left rotation change a snapshot that holds a tree in a context into one that holds the rotated tree in the same context. |
| `RbTree.Head.LiftFromLeft` | src/oboskrnl/utils/tree.h:411-426 | One round of the insertion repair under a left parent keeps the order and the black counts, leaves at most one red node under a red one, and moves up. |
| `RbTree.Head.LiftFromRight` | src/oboskrnl/utils/tree.h:427-442 | The same round under a right parent. |
| `RbTree.Head.InsertColor` | src/oboskrnl/utils/tree.h:404-446 | From a tree whose only fault is a red node under a red parent, the repair loop ends with no such fault, equal black counts, a black root and the same order. |
| `RbTree.Head.MakeUpFromLeft` | src/oboskrnl/utils/tree.h:454-485 | One round of the removal repair at a left child either makes up for the missing black node or passes the lack on with a smaller measure; the sibling it uses exists. |
| `RbTree.Head.MakeUpFromRight` | src/oboskrnl/utils/tree.h:486-518 | The same round at a right child. |
| `RbTree.Head.RemoveColor` | src/oboskrnl/utils/tree.h:448-522 | From a tree that lacks one black node on the paths through one place, the loop ends with equal black counts, no red node under a red one and the same order. |
| `RbTree.Head.Detach` | src/oboskrnl/utils/tree.h:524-582 | Taking a node out, with or without its successor in its place, leaves exactly the other nodes, in order, short of a black node at most at the place reported. |
| `RbTree.Head.Remove` | src/oboskrnl/utils/tree.h:524-589 | Removing any member of a valid tree leaves a valid tree (order, parent links, colours, black counts) of exactly the other nodes, in their order. |
| `RbTree.Head.Insert` | src/oboskrnl/utils/tree.h:592-620 | Either an element with an equal key is returned and no link changes, or the element joins at its place in the order and the tree is valid. |
| `RbTree.Head.Find` | src/oboskrnl/utils/tree.h:623-639 | Finds the node with the key or shows that no node has it, in at most 2 lg(n + 1) comparisons. |
| `RbTree.Head.NFind` | src/oboskrnl/utils/tree.h:641-659 | Finds the least node not below the key or shows that all are below it, in at most 2 lg(n + 1) comparisons. |
| `RbTree.Head.Next` | src/oboskrnl/utils/tree.h:661-680 | Returns the node after the given one in order, null after the last. |
| `RbTree.Head.Prev` | src/oboskrnl/utils/tree.h:682-701 | Returns the node before the given one in order, null before the first. |
| `RbTree.Head.NextThenPrev` | src/oboskrnl/utils/tree.h:661-701 | Going to the next node and back returns to the same node; without a next node the key is the greatest. |
| `RbTree.Head.MinMax` | src/oboskrnl/utils/tree.h:703-716 | Returns the first node in order for a negative argument and the last otherwise, null for an empty tree. |
| `RbTree.Head.Foreach` | src/oboskrnl/utils/tree.h:730-733 | From the least node, taking the next one each time visits every node once, in strictly increasing order. |
| `RbShape.HeightBound` | src/oboskrnl/utils/tree.h:52-58 | A tree that meets the colour rules and has n nodes is no higher than 2 lg(n + 1). |
| `RbShape.PlugBalanced` | src/oboskrnl/utils/tree.h:404-446 | A tree meets the colour rules as a whole if it meets them at one place and around it. |
| `RbMem.MendLemmaL` | src/oboskrnl/utils/tree.h:478-484 | The last rotation of the removal repair settles the lack of a black node for good. |
| `Bits.MaskIsMod` | src/oboskrnl/utils/hashmap.c:341-341 | Masking a hash with the number of buckets less one is the remainder, for a power of two. |
| `RobinHood.Reach` | src/oboskrnl/utils/hashmap.c:292-323 | Every bucket from an entry's home up to the entry is at least as far from its own home as the entry would be there. |
| `RobinHood.FitsIn` | src/oboskrnl/utils/hashmap.c:292-323 | A table never has more keys than buckets, and as many exactly if no bucket is empty. |
| `RobinHood.KeepReturning` | src/oboskrnl/utils/hashmap.c:297-316 | A set of a present key meets no empty bucket and displaces nothing before it reaches the old copy. |
| `RobinHood.RoundKeeps` | src/oboskrnl/utils/hashmap.c:292-323 | Every round of the set loop keeps the Robin Hood order and the total contents, and ends or gets closer to its end. |
| `RobinHood.SetEndsIff` | src/oboskrnl/utils/hashmap.c:292-323 | The set loop ends if and only if the table has an empty bucket or holds the key. |
| `RobinHood.ProbeEndsIff` | src/oboskrnl/utils/hashmap.c:341-352 | The probe of get and delete stops if and only if the table has an empty bucket or holds the key. |
| `RobinHood.NeverStored` | src/oboskrnl/utils/hashmap.c:292-323 | In a full table, after any number of rounds, the entry in hand is still not stored if its key was not there. |
| `RobinHood.ShiftKeeps` | src/oboskrnl/utils/hashmap.c:392-403 | Every round of the shift after a removal keeps order and contents, and ends or gets closer to an empty or home bucket. |
| `HashMap.Thresholds` | src/oboskrnl/utils/hashmap.c:165-167 | The load factor stored is 196, so the growth threshold lies above the number of buckets. |
| `HashMap.DefaultSetReturnsIff` | src/oboskrnl/utils/hashmap.c:284-323 | In a table with the default thresholds the growth check does not fire, and a set returns if and only if a bucket is empty or the key is there. |
| `HashMap.FullTableHangs` | src/oboskrnl/utils/hashmap.c:284-323 | For every table size there is a full table on which setting a new key never returns. |
| `HashMap.SixteenSets` | src/oboskrnl/utils/hashmap.c:280-324 | In a new map sixteen sets of different keys fill the table with the growth check still silent, and a set of a seventeenth never returns. |
| `HashMap.Map.constructor` | src/oboskrnl/utils/hashmap.c:114-172 | A new map is empty and has the least power of two of buckets, at least 16, that is not below the capacity asked for. |
| `HashMap.Map.GetWithHash` | src/oboskrnl/utils/hashmap.c:337-353 | Returns what the map holds for the key, or nothing. |
| `HashMap.Map.SetWithHash` | src/oboskrnl/utils/hashmap.c:280-324 | Maps the key to the item and nothing else, returns the old item if there was one; when growing fails, nothing changes but the out-of-memory mark. The buckets are multiplied, with new thresholds, exactly when the growth check fires and memory is there; otherwise the same table stays. |
| `HashMap.Map.DeleteWithHash` | src/oboskrnl/utils/hashmap.c:376-415 | Removes the key and nothing else, returns its item if there was one; the table is halved, with new thresholds, exactly when it is larger than the capacity, few enough items are left and memory is there; otherwise the same table stays. |
| `HashMap.Map.MaybeShrink` | src/oboskrnl/utils/hashmap.c:404-410 | Shrinks exactly when there are more buckets than the capacity and few enough items, to half the buckets, and keeps the contents. |
| `HashMap.Map.Resize` | src/oboskrnl/utils/hashmap.c:236-271 | Rehashing into any capacity with room for all items, without comparing keys, keeps the contents and restores the Robin Hood order; a failed allocation changes nothing. |
| `HashMap.Map.Clear` | src/oboskrnl/utils/hashmap.c:217-234 | Leaves an empty map with the capacity asked for, in the same table if it has that size already, in a new one, or, without memory for that, in the first buckets of the old one, which has enough; it then grows exactly when full. |
| `HashMap.Map.IterAll` | src/oboskrnl/utils/hashmap.c:477-486 | Iterating from 0 yields every key once, with its item. |
| `SchedOps.LeastLoadedLemma` | src/oboskrnl/scheduler/thread.c:87-95 | The CPU found is the first of those the affinity allows with the fewest threads of that priority; none is found exactly if none is allowed. |
| `SchedOps.ReadyInv` | src/oboskrnl/scheduler/thread.c:75-110 | Readying any thread in any state keeps the scheduler's invariant. |
| `SchedOps.BlockInv` | src/oboskrnl/scheduler/thread.c:111-134 | Blocking a thread keeps the invariant, up to the CPU that runs it. |
| `SchedOps.BoostInv` | src/oboskrnl/scheduler/thread.c:135-160 | Boosting any thread in any state keeps the invariant. |
| `SchedMoves.ReadyIs` | src/oboskrnl/scheduler/thread.c:75-110 | A thread without a CPU becomes the last on the shortest list of its priority among the CPUs it may run on, the first of several; without such a CPU, or with a bad priority, nothing changes and that is reported. |
| `SchedMoves.BlockIs` | src/oboskrnl/scheduler/thread.c:111-130 | A thread that has a CPU is cut out of its list, the others keep their order, and it has no CPU, raise or quantum left; one that has none is refused. |
| `SchedMoves.BoostIs` | src/oboskrnl/scheduler/thread.c:135-160 | Exactly when a boost is refused and when it changes nothing; otherwise the thread is raised by one, and goes from its list to the end of the next. |
| `SchedModel.OnExactlyOneList` | src/oboskrnl/scheduler/thread.c:75-110 | Under the invariant a thread is on a list exactly if that list is the one of its priority at its CPU. |
| `SchedCore.LowerInv` | src/oboskrnl/scheduler/schedule.c:177-188 | Taking the raise back from the current thread keeps the invariant and touches no other CPU. |
| `SchedCore.RaiseRound` | src/oboskrnl/scheduler/schedule.c:61-85 | One round of starvation prevention moves a waiting, unraised thread one list up and nothing else, and keeps the invariant. |
| `SchedCore.RaisedAll` | src/oboskrnl/scheduler/schedule.c:51-91 | After a pass over a list only idle, running and raised threads are left on it, unless it is down to three. |
| `SchedMoves.StarvationIs` | src/oboskrnl/scheduler/schedule.c:51-91 | A pass over a list counts, and starts its count again at the list's quantum; then no thread moves, otherwise the waiting, unraised ones go one list up and are raised, until three are left or none is such, and no other thread changes. |
| `SchedMoves.ScheduleStarves` | src/oboskrnl/scheduler/schedule.c:165-213 | In a whole schedule step on several CPUs each of the four lower lists is counted, and unless its count starts again, four or more threads on it are all idle, were running, or are raised; with one CPU nothing is counted. The thread that ran is lowered to where it was before its raise. |
| `SchedCore.NotRunningElsewhere` | src/oboskrnl/scheduler/schedule.c:283-284 | A thread of this CPU that is not its current one is not marked running. |
| `SchedCore.ScheduleInv` | src/oboskrnl/scheduler/schedule.c:165-300 | A whole schedule step keeps the invariant, also when the CPU is in the middle of blocking its thread. |
| `SchedCore.ScheduleOutside` | src/oboskrnl/scheduler/schedule.c:165-300 | A schedule step leaves the other CPUs and their threads alone. |
| `SchedCore.ScheduledThread` | src/oboskrnl/scheduler/schedule.c:278-292 | The thread switched to belongs to the CPU, which its affinity allows; it is marked running unless it was current already. |
| `SchedBase.PickMeaning` | src/oboskrnl/scheduler/schedule.c:230-267 | A new search picks the first thread not running of the highest list that has one, and the idle thread if none has. |
| `SchedNext.NextOnList` | src/oboskrnl/scheduler/schedule.c:165-228 | If on the lists as the step leaves them a thread stands right behind the one that ran, it is the next one, and the CPU's list and turns stay. |
| `SchedNext.NextWhenCalm` | src/oboskrnl/scheduler/schedule.c:165-228 | On a CPU that is the only one or has fewer than four threads on each list, behind a thread that was not raised the next one of the old list runs next. |
| `SchedNext.NextBySearch` | src/oboskrnl/scheduler/schedule.c:215-267 | With nothing behind the thread that ran, the turn of the list is counted, at its quantum the next lower list has its turn and urgent follows idle, and the next thread is the first that was waiting, on the highest list from there down that has one, else the idle thread. |
| `SchedTurns.EveryTurn` | src/oboskrnl/scheduler/schedule.c:165-300 | From every state with the invariant, however long the lists are and whoever is raised, schedule steps of a CPU make each of its threads the current one after some number of steps. |
| `SchedTurns.NoneStarves` | src/oboskrnl/scheduler/schedule.c:42-300 | The same after every run of any steps on any number of CPUs: no thread that belongs to a CPU starves if the CPU goes on scheduling. |
| `SchedTurns.ScheduleWaits` | src/oboskrnl/scheduler/schedule.c:51-300 | In a schedule step a thread that waits is raised, has fewer threads before it, or stays right behind the same ones; and no more come behind a running thread than are raised to its list. |
| `SchedNext.TurnLength` | src/oboskrnl/scheduler/schedule.c:303-334 | A thread that was just switched to goes on for 1, 3, 7, 11 or 11 yields, by its priority, and at the next yield the CPU reschedules. |
| `SchedNext.GoesOn` | src/oboskrnl/scheduler/schedule.c:303-334 | Until its quantum is used up, yields change nothing but the running thread's quantum. |
| `SchedNext.QuantumTable` | src/oboskrnl/scheduler/schedule.c:31-37 | The quanta of the five priorities are 2, 4, 8, 12 and 12. |
| `SchedBase.BaseIff` | src/oboskrnl/scheduler/thread.c:111-134 | Every step keeps every thread's priority without its raise, except that blocking a raised thread makes the raise permanent. |
| `SchedBase.ScheduleBase` | src/oboskrnl/scheduler/schedule.c:165-300 | A schedule step changes no thread's priority but by raises and their end. |
| `SchedRun.RunSafety` | src/oboskrnl/scheduler/schedule.c:51-300 | Over every run on any number of CPUs: each thread is on exactly the list of its priority at its CPU, which its affinity allows; no thread is current on two CPUs; the ready count is the length of all lists; a raised thread has priority 1 to 4. |
| `SchedFate.StepFate` | src/oboskrnl/scheduler/schedule.c:165-334 | Every step leaves every thread at its CPU, except that one that is blocked has none and one that is readied gets one; a thread without a CPU becomes blocked only by being blocked. |
| `SchedFate.KeepsCpu` | src/oboskrnl/scheduler/schedule.c:165-334 | Over every run, a thread that belongs to a CPU keeps it until a step blocks it. |
| `SchedFate.NoneLost` | src/oboskrnl/scheduler/schedule.c:51-334 | Over every run, a thread is on a list, and on one only, if and only if it is an idle thread or was ever readied, and is not blocked. |
| `SchedRun.StartInv` | src/oboskrnl/scheduler/schedule.c:165-300 | With each CPU's idle thread on its idle list the invariant holds at the start. |
| `SchedRun.AssertionNeverFires` | src/oboskrnl/scheduler/schedule.c:283-284 | In every state with the invariant, the thread a schedule step picks meets the assertion before the switch. |
| `SchedRun.BlockSafeIff` | src/oboskrnl/scheduler/thread.c:111-134 | Blocking a thread without rescheduling keeps the invariant if and only if no CPU runs it and it is no CPU's idle thread. |
| `SchedFate.BlockedElsewhere` | src/oboskrnl/scheduler/thread.c:111-134 | A run of three steps on two CPUs after which blocking a thread breaks the invariant. |
| `SchedFate.BlockedRaised` | src/oboskrnl/scheduler/thread.c:111-134 | A run after which a thread of priority 1 is blocked and keeps priority 2. |
| `Scheduler.Kernel.ReadyNode` | src/oboskrnl/scheduler/thread.c:75-110 | The code has the outcome and the new state that `DoReady` gives. |
| `Scheduler.Kernel.Block` | src/oboskrnl/scheduler/thread.c:111-130 | The code has the outcome and the new state that `DoBlock` gives. |
| `Scheduler.Kernel.BlockCurrent` | src/oboskrnl/scheduler/thread.c:111-134 | Blocking the calling CPU's own thread and yielding leads to the state that `BlockThenYield` gives. |
| `Scheduler.Kernel.BoostPriority` | src/oboskrnl/scheduler/thread.c:135-160 | The code has the outcome and the new state that `DoBoost` gives. |
| `Scheduler.Kernel.StarvationPrevention` | src/oboskrnl/scheduler/schedule.c:51-91 | The loop from the tail leads to the state that `Starvation` gives, and ends. |
| `Scheduler.Kernel.Search` | src/oboskrnl/scheduler/schedule.c:230-267 | The downward search ends with the thread that `Pick` gives. |
| `Scheduler.Kernel.Schedule` | src/oboskrnl/scheduler/schedule.c:165-300 | The whole step leads to the state that `DoSchedule` gives, which `SchedNext.NextOnList`, `SchedNext.NextBySearch`, `SchedMoves.ScheduleStarves` and `SchedTurns.EveryTurn` pin down. |
| `Scheduler.Kernel.Yield` | src/oboskrnl/scheduler/schedule.c:303-334 | A thread that may run and has quantum left goes on, else the CPU reschedules, as `DoYield` gives. |
| `ThreadList.List.Append` | src/oboskrnl/scheduler/thread.c:161-181 | The list grows by the node at its tail if and only if the node's next link was null. |
| `ThreadList.List.Remove` | src/oboskrnl/scheduler/thread.c:182-216 | The list loses exactly the node, which can be appended again. |
| `SchedLinks.AppendLinked` | src/oboskrnl/scheduler/thread.c:161-181 | On a map of links, appending makes those of the longer list if and only if the node's next link was null, and changes no other list's. |
| `SchedLinks.RemoveLinked` | src/oboskrnl/scheduler/thread.c:182-216 | On a map of links, removing makes those of the list without the node, whose links become null, and changes no other list's. |
| `SchedLinks.StepLinks` | src/oboskrnl/scheduler/schedule.c:51-300 | The appends and removals of each step, in order, each append with a null next link, lead from the links of the old lists to those of the new ones. |
| `SchedLinks.RunLinks` | src/oboskrnl/scheduler/thread.c:75-216 | Over every run, every append finds the node's next link null, and the links are always those of the lists. |
| `HeapModel.PagesBalance` | src/oboskrnl/allocators/basic_allocator.c:69-72 | For every request a region is given back with as many pages as it was taken with, its first node ends within them, and that node can be split for the request. |
| `HeapModel.FreshFitsIff` | src/oboskrnl/allocators/basic_allocator.c:107-125 | In 64 bits, with the request rounded first, a new region serves it with a block of at least that size inside its node if and only if it is at most 2^64 less four pages; for larger ones, exactly which are left, cut to a block beyond the node, or to none. |
| `HeapModel.OpeningsIff` | src/oboskrnl/allocators/basic_allocator.c:200-293 | A request that the first new region does not serve opens regions as long as the provider gives any, and is served by none. |
| `HeapModel.HugeRequests` | src/oboskrnl/allocators/basic_allocator.c:200-293 | Three such sizes: one that opens regions for ever, one that gets a block larger than its region, one that gets a block of no bytes. |
| `HeapModel.SplitInv` | src/oboskrnl/allocators/basic_allocator.c:252-283 | Splitting a free node keeps all extents apart, aligned and inside their regions, and adds exactly the new block to those in use. |
| `HeapModel.ClaimInv` | src/oboskrnl/allocators/basic_allocator.c:226-251 | Taking a free node of the exact size keeps the invariant, also of the hint, and adds exactly that block. |
| `HeapModel.OpenInv` | src/oboskrnl/allocators/basic_allocator.c:107-137 | A new region keeps all extents and regions apart and the page count right. |
| `HeapModel.ReturnInv` | src/oboskrnl/allocators/basic_allocator.c:376-405 | Freeing a block keeps the invariant, also of the hint, and takes exactly that block out of use. |
| `HeapModel.CloseInv` | src/oboskrnl/allocators/basic_allocator.c:138-181 | Giving back a region with its last block keeps the invariant and the page count. |
| `HeapModel.BiggestLemma` | src/oboskrnl/allocators/basic_allocator.c:238-249 | The search for a new hint finds a largest free node, and none exactly if there is none. |
| `HeapModel.ClaimHint` | src/oboskrnl/allocators/basic_allocator.c:226-251 | When the hint's node is taken whole, the new hint is a largest of the free nodes left, and there is one exactly if any is left; otherwise the hint stays. |
| `HeapModel.SplitFootprint` | src/oboskrnl/allocators/basic_allocator.c:252-283 | Splitting a node neither makes nor loses bytes. |
| `HeapModel.OpenFootprint` | src/oboskrnl/allocators/basic_allocator.c:107-137 | A new region adds its block and one header. |
| `HeapModel.ResizeFootprint` | src/oboskrnl/allocators/basic_allocator.c:342-355 | Shrinking a block where it is loses exactly the bytes it gives up. |
| `Heap.WipeHeader` | src/oboskrnl/allocators/basic_allocator.c:226-283 | A store to the header of any node changes no byte of a block in use. |
| `Heap.WipeRegionHeader` | src/oboskrnl/allocators/basic_allocator.c:138-147 | A store to the header of any region changes no byte of a block in use. |
| `Heap.Heap.Relink` | src/oboskrnl/allocators/basic_allocator.c:226-305 | The stores for a node that changes lists (its own header, its neighbours, the other list's last node, the region) change no byte of a block in use. |
| `Heap.Heap.FindRegion` | src/oboskrnl/allocators/basic_allocator.c:199-213 | Finds the first region from a place on whose hint promises the size. |
| `Heap.Heap.FindNode` | src/oboskrnl/allocators/basic_allocator.c:220-285 | Finds the first free node that is of the size or can be split for it; none of the corruption checks fires. |
| `Heap.Heap.Allocate` | src/oboskrnl/allocators/basic_allocator.c:182-313 | Returns an aligned block of the rounded size that overlaps no other, from the first region that promises and has room, else from a new region; all blocks in use keep their bytes; no bytes of the nodes are lost or made; the retries end. |
| `Heap.Heap.Free` | src/oboskrnl/allocators/basic_allocator.c:362-412 | Takes exactly the block out of use; its node is the last of its region's free nodes, no other node or list changes, and a request for as many bytes would find room; all other blocks keep their bytes; the last block of a region gives the region back. |
| `Heap.Heap.FreeRegion` | src/oboskrnl/allocators/basic_allocator.c:138-181 | Gives back the region's pages and nothing that another block is in. |
| `Heap.Heap.Reallocate` | src/oboskrnl/allocators/basic_allocator.c:324-361 | Shrinking stays in place, growing moves the block with all its old bytes, size 0 frees, address 0 allocates, and other blocks keep their bytes; growing returns 0 exactly if no region has room and the provider no pages, and then the old block is free. |
| `Heap.Heap.Grow` | src/oboskrnl/allocators/basic_allocator.c:356-360 | Returns 0 exactly if no region has room and the provider no pages: then the old block is freed, and blocks keep their bytes where the copy to address 0 did not write. Otherwise the old bytes are at the new block, the old one is free, and other blocks keep their bytes. |
| `Heap.GrowthLoses` | src/oboskrnl/allocators/basic_allocator.c:356-360 | A heap with one block, as the first request leaves it, that has no room to grow the block and loses it. |
| `Heap.FreedServes` | src/oboskrnl/allocators/basic_allocator.c:376-405 | After a block was freed and its region kept, a request for as many bytes does not fail, even without new pages. |
| `Heap.PassedIff` | src/oboskrnl/allocators/basic_allocator.c:199-213 | Regions are passed over only for sizes that none of their free nodes would serve if and only if each hint is as large as every free node of its region. |
| `Heap.NoRoomIff` | src/oboskrnl/allocators/basic_allocator.c:199-313 | While the hints are so, a request finds no room exactly if no free node would serve it. |
| `Heap.HintMisses` | src/oboskrnl/allocators/basic_allocator.c:199-283 | A run of four calls after which a request finds no room although a free node of exactly its size is there. |
| `Heap.ServedThere` | src/oboskrnl/allocators/basic_allocator.c:199-293 | The region and node found by the retry loop are the only ones that first fit allows. |
| `PhysPages.RequiredIs` | src/oboskrnl/mm/pmm.c:92-102 | For a power-of-two alignment the masks make the pages taken the request plus both remainders of the run. |
| `PhysPages.ServedIff` | src/oboskrnl/mm/pmm.c:126-166 | A run found sufficient yields at least the request, aligned, inside the run, if and only if at most 2^52 pages were asked for. |
| `PhysPages.WrappedRequest` | src/oboskrnl/mm/pmm.c:127-128 | Asking for 2^64 - 1 pages at alignment 2 succeeds with no pages. |
| `PhysPages.AcceptedIff` | src/oboskrnl/mm/pmm.c:114-119 | Below 2^32 exactly the powers of two pass the alignment test. |
| `PhysPages.AlignedIff` | src/oboskrnl/mm/pmm.c:92-102 | All sufficient runs yield aligned addresses if and only if the alignment is a power of two, or so large, more than 2^51 pages, that no run is sufficient. |
| `PhysPages.NoneLargeEnough` | src/oboskrnl/mm/pmm.c:92-102 | With an alignment of more than 2^51 pages no run is sufficient. |
| `PhysPages.OddAlignmentAccepted` | src/oboskrnl/mm/pmm.c:114-119 | An alignment of 2^32 + 1 pages passes the test. |
| `PhysPages.AllocKeeps` | src/oboskrnl/mm/pmm.c:105-166 | An allocation at any alignment that does not wrap around keeps free and held runs apart and free pages plus used pages constant. |
| `PhysPages.AllocServes` | src/oboskrnl/mm/pmm.c:105-166 | For a power-of-two alignment and no wrap-around, the pages handed out are at an aligned address, as many as asked for up to less than one alignment more, at the end of the first free run that has them; that run keeps its other pages, and no other run changes. None is handed out exactly if no run has them. |
| `PhysPages.FreeKeeps` | src/oboskrnl/mm/pmm.c:189-206 | Freeing all or the first part of a held run does the same. |
| `PhysPages.RunSafety` | src/oboskrnl/mm/pmm.c:105-206 | Over every run of requests, held and free runs stay pairwise apart, and free pages plus the used count is constant in 64 bits. |
| `PhysMem.UnlinkChain` | src/oboskrnl/mm/pmm.c:145-160 | The stores that unlink a node make the links those of the list without it. |
| `PhysMem.AppendChainIff` | src/oboskrnl/mm/pmm.c:189-206 | The stores that append a run make the links those of the longer list if and only if the link word of its first page was 0. |
| `PhysMem.StaleLink` | src/oboskrnl/mm/pmm.c:189-206 | Any word but 0 left in a page makes the list of that one page run on behind its end. |
| `PhysMem.Allocator.Search` | src/oboskrnl/mm/pmm.c:132-134 | Walking the links finds the first sufficient run of the list. |
| `PhysMem.Allocator.Allocate` | src/oboskrnl/mm/pmm.c:105-166 | On linked nodes in memory the code does to the list and the used count what `DoAlloc` does, and writes to no page that is not a free node. At a power-of-two alignment without wrap-around the pages are aligned, enough, part of the first old free run that has them and of none left, and there are none exactly if no run has them. |
| `PhysMem.Allocator.Free` | src/oboskrnl/mm/pmm.c:189-221 | The run joins the list exactly if its link word was 0; only its own first page and the last node are written. |
| `Aging.AgeIsHistory` | src/oboskrnl/mm/handler.c:301-304 | After eight passes or more the age is the touch history of the last seven, one bit for each. |
| `Aging.DroppedIff` | src/oboskrnl/mm/handler.c:301-309 | The last pass then finds age 0 if and only if the page was touched neither in it nor in the six before. |
| `Aging.Survives` | src/oboskrnl/mm/handler.c:301-309 | A page with one of the two lowest bits of its age set lives through six passes. |
| `WorkingSet.EvictedIff` | src/oboskrnl/mm/handler.c:144-171 | Over every run of page-ins, with passes between them, a page that was in the working set throughout leaves it in the last pass if and only if its age becomes 0; after eight passes or more, if and only if it was untouched in that pass and the six before. |
| `WorkingSet.StepKeeps` | src/oboskrnl/mm/handler.c:144-171 | Every page-in, with the pass that may follow, keeps each page on at most one list, pages on a list in memory, and the count of working sets right. |
| `WorkingSet.DueIff` | src/oboskrnl/mm/handler.c:144-171 | The test for a pass is that the referenced list with one page more is over a quarter of the capacity. |
| `WorkingSet.PageInIff` | src/oboskrnl/mm/handler.c:144-171 | A page-in runs a pass exactly then, and the pass empties the list unless the set is exactly full; any other page-in adds the page to the list and changes nothing else. |
| `WorkingSet.RunWaits` | src/oboskrnl/mm/handler.c:144-171 | Over every run of page-ins the referenced list stays below a quarter of the capacity, but for when the working set is exactly full. |
| `WorkingSet.NewcomerStays` | src/oboskrnl/mm/handler.c:144-171 | A page that joins the working set stays in it through the next six passes, touched or not. |
| `WorkingSet.WithinCapacityIff` | src/oboskrnl/mm/handler.c:335-364 | A pass ends within the capacity if and only if that is a whole number of pages or all pages kept and referenced fit. |
| `WorkingSet.OverCapacity` | src/oboskrnl/mm/handler.c:335-364 | With a capacity of one byte more than a page the second page-in exceeds it. |
| `WorkingSet.HandedIff` | src/oboskrnl/mm/handler.c:294-360 | A page is handed to the swap code in a pass if and only if the pass takes it off both lists. |
| `WorkingSet.DropStep` | src/oboskrnl/mm/handler.c:310-334 | Dropping one page and letting the page referenced last take its place leads to the next stage of the pass. |
| `WorkingSet.SeenStep` | src/oboskrnl/mm/handler.c:294-309 | A page that joined during the pass is looked at later in it, and stays. |
| `WorkingSet.Context.AgePass` | src/oboskrnl/mm/handler.c:294-333 | The first loop ends, never meets a page that is paged out, and leaves the working set with exactly the surviving and the joining pages. |
| `WorkingSet.Context.Fill` | src/oboskrnl/mm/handler.c:342-365 | The second loop empties the referenced list into the working set as long as there is room and into the swap code after that. |
| `WorkingSet.Context.RunPass` | src/oboskrnl/mm/handler.c:271-368 | A pass ends without a panic; the size is that of the pages; its last assertion holds exactly under the condition of `WithinCapacityIff`; the referenced list is emptied unless the set is exactly full; lists, and age and state of every page, are exactly as replacement by age says. |
| `WorkingSet.Context.PageIn` | src/oboskrnl/mm/handler.c:144-171 | A page that was swapped in is in no working set, joins the referenced list, and a pass follows exactly if the list with one page more is over a quarter of the capacity; lists and pages are as that pass says, and otherwise as before but for the page. |
| `Swap.OutKeepsIff` | src/oboskrnl/mm/swap.c:44-76 | Once a slot is reserved, contents and the slots of all devices stay in order if and only if the page is not written while it is out already, a slot that is not used is freed, and a page whose frame cannot be released is mapped again. |
| `Swap.TwiceBreaks` | src/oboskrnl/mm/swap.c:21-76 | A page swapped out twice leaves a slot that no page owns. |
| `Swap.InKeeps` | src/oboskrnl/mm/swap.c:78-119 | Swapping in keeps every page's contents and the correspondence of slots and pages, whatever fails, and a success makes the page resident. |
| `Swap.OutThenIn` | src/oboskrnl/mm/swap.c:21-119 | A page swapped out and in again has its contents, and the slots are those from before. |
| `Swap.OutIff` | src/oboskrnl/mm/swap.c:21-77 | Exactly when a page in memory goes out and what each error comes from; going out frees its frame and puts what was in it into the one slot reserved, and changes no other page, frame or slot. |
| `Swap.InIff` | src/oboskrnl/mm/swap.c:78-119 | Exactly when a page comes in and what each error comes from; coming in puts what was in the slot into the frame and frees the slot, and changes nothing else. |
| `Swap.MoveKeepsIff` | src/oboskrnl/mm/swap.c:121-147 | Changing the device keeps contents and the slots of all devices in order, whatever they hold, if and only if nothing is to be moved, or all pages that are out are the kernel's, get a slot, are read and written without an error, and have their old slots freed. |
| `Swap.MoveInvIff` | src/oboskrnl/mm/swap.c:121-147 | The reserved slots of all devices and the pages that are out stay one to one if and only if nothing is to be moved, or all these pages are the kernel's, get a slot, and have their old slots freed. |
| `Swap.WrongContents` | src/oboskrnl/mm/swap.c:136-144 | Of two pages, the second of which cannot be read, the second ends up with the contents of the first. |
| `Swap.SlotLeftBehind` | src/oboskrnl/mm/swap.c:136-144 | A page is moved to another device and back, and the first time its slot is not freed: the device in use then has a reserved slot that is no page's. |
| `Swap.RunSafety` | src/oboskrnl/mm/swap.c:21-147 | Over every run in which these conditions hold, every page keeps its contents and the reserved slots of all devices correspond one to one with pages that are out. |
| `Swap.OutAgreesIff` | src/oboskrnl/mm/swap.c:48-76 | Exactly when swapping out leaves the page's present flag in agreement with its being mapped, whatever the flag was before. |
| `Swap.StepAgreesIff` | src/oboskrnl/mm/swap.c:21-147 | After any step of a run a page's flag agrees if and only if the step did not fail to unmap it, and set the flag or found it right. |
| `Swap.RunAgrees` | src/oboskrnl/mm/swap.c:21-147 | Over every run in which no unmapping of a page fails, its flag agrees throughout. |
| `Swap.FlagLost` | src/oboskrnl/mm/swap.c:51-60 | For every page in memory that may be swapped out, a failed unmapping leaves the flag wrong. |
| `Swap.Swapper.SwapOut` | src/oboskrnl/mm/swap.c:21-77 | Step by step, with every failure, also of giving a slot back, the code does what `DoOut` says; a failed reservation leaves page and slots as they were, and so does a failed write if the slot is freed. |
| `Swap.Swapper.SwapIn` | src/oboskrnl/mm/swap.c:78-119 | Step by step, with every failure, also of giving the frame back, the code does what `DoIn` says. |
| `Swap.Swapper.ChangeProvider` | src/oboskrnl/mm/swap.c:121-147 | The loop over the kernel's pages, with every answer of both devices, the slots that stay on the old one, and the buffer that pages go through, does what `DoChange` says. |
| `AddressSpace.PickApartIff` | src/oboskrnl/mm/alloc.c:35-97 | The range found overlaps no page below the limit, unless the size is within a page of 2^64; then it does not exactly if the only page in the window is the one at its base. |
| `AddressSpace.PickIs` | src/oboskrnl/mm/alloc.c:35-97 | The address found is the base, if there is room before the first page; else a page behind the page before the first gap that is large enough; else right behind the last page. |
| `AddressSpace.ChooseIff` | src/oboskrnl/mm/alloc.c:161-199 | A base is refused exactly without the hint flag and with a page in the way; it is retried for ever exactly with the flag, if it and the proposed range both have one; otherwise the base, or the proposed address if that fails, is used, and nothing is in the way. |
| `AddressSpace.TotalIs` | src/oboskrnl/mm/alloc.c:118-160 | The bytes mapped are those asked for, rounded up to whole pages, and a guard page if asked for. |
| `AddressSpace.PickInLimitIff` | src/oboskrnl/mm/alloc.c:58-91 | The range found ends below the limit if and only if there was room before the first page, between two pages with a page to spare, or after the last. |
| `AddressSpace.PickBeyondLimit` | src/oboskrnl/mm/alloc.c:58-91 | For every bounds of an address space, a layout for which the address found is that of a mapped page beyond the limit. |
| `AddressSpace.RetriesIff` | src/oboskrnl/mm/alloc.c:161-193 | A hint is retried for ever if and only if its own range meets a page, and the range the search proposes ends below 2^64 and holds a page at or above the limit. |
| `AddressSpace.PickConflict` | src/oboskrnl/mm/alloc.c:161-193 | The range the search proposes meets a page if and only if it ends below 2^64 and holds a page at or above the limit. |
| `AddressSpace.HintHangs` | src/oboskrnl/mm/alloc.c:161-193 | For every bounds at least two pages below 2^64, a layout on which a hint at the base is retried for ever. |
| `AddressSpace.CanHangIff` | src/oboskrnl/mm/alloc.c:161-193 | There is a layout on which some hint is retried for ever if and only if the limit is at least two pages below 2^64. |
| `AddressSpace.RoundTripIff` | src/oboskrnl/mm/alloc.c:201-346 | Releasing what was mapped restores the pages if and only if a guard page was asked for or no lone guard page lies right below. |
| `AddressSpace.GuardsAfterAlloc` | src/oboskrnl/mm/alloc.c:273-278 | Mapping keeps every guard page followed by a page of its mapping. |
| `AddressSpace.GuardsAfterFree` | src/oboskrnl/mm/alloc.c:383-399 | Releasing keeps every guard page followed by a page of its mapping. |
| `AddressSpace.NoLoneGuard` | src/oboskrnl/mm/alloc.c:383-399 | Where guard pages are followed there is no lone one, so mapping and releasing cancel out. |
| `AddressSpace.FreeExactIff` | src/oboskrnl/mm/alloc.c:347-462 | A release that reports success takes away exactly the range and its guard page if and only if the range ends below 2^64. |
| `AddressSpace.LastPageStays` | src/oboskrnl/mm/alloc.c:347-462 | The last page below 2^64 is reported as released and is still there. |
| `AddressSpace.Context.FindAvailable` | src/oboskrnl/mm/alloc.c:35-97 | The loop over the page tree ends with the address that `Pick` gives. |
| `AddressSpace.Context.Conflicts` | src/oboskrnl/mm/alloc.c:174-185 | Finds out whether a page starts in the range, up to its wrapping end. |
| `AddressSpace.Context.ChooseBase` | src/oboskrnl/mm/alloc.c:161-199 | Refuses a base exactly without the hint flag and with a page in the way, retries it for ever exactly if it and the proposed range both have one, and otherwise uses the base if it is free, else the proposed address. |
| `AddressSpace.Context.Populate` | src/oboskrnl/mm/alloc.c:217-322 | Either all pages of the range are mapped beside the old ones, or a failed mapping leaves the pages as they were. |
| `AddressSpace.Context.Alloc` | src/oboskrnl/mm/alloc.c:98-346 | Reports each error exactly when it is due, a taken base only without the hint flag; the range is at the base asked for if that is free, else where the search proposes; on success the pages are the old ones and the range, the first a guard page if asked for; on failure they are the old ones. |
| `AddressSpace.Context.Free` | src/oboskrnl/mm/alloc.c:347-462 | Either some page of the range is missing and nothing changes, or the pages of the range and the guard page below it are gone and no others. |
| `Crc32.TableStep` | src/oboskrnl/gpt.c:184-188 | Eight shifts of the register are one look-up by its low byte and a shift by eight. |
| `Crc32.BytesAreBits` | src/oboskrnl/gpt.c:184-188 | Taking in a message byte by byte is taking it in bit by bit. |
| `Crc32.Continues` | src/oboskrnl/gpt.c:189-196 | Continuing from the checksum of a over b gives the checksum of a + b. |
| `Crc32.WindowDetected` | src/oboskrnl/gpt.c:184-204 | Two messages of one length that differ only inside a window of four bytes have different checksums. |
| `CrcDivision.PolyIsGenerator` | src/oboskrnl/gpt.c:173-183 | The constant of the code is the generator polynomial of RFC 1952 without its highest power, bits reversed. |
| `CrcDivision.Divided` | src/oboskrnl/gpt.c:184-204 | Feeding bits to the register is long division: start and message, less what the register then holds, is a multiple of the generator. |
| `CrcDivision.ChecksumIff` | src/oboskrnl/gpt.c:184-204 | A word is the checksum of a message if and only if its complement is the remainder of that division; there is only one. |
| `Crc32.LookUp` | src/oboskrnl/gpt.c:184-188 | The table entry at the low byte of register and signed character does for the register what eight message bits do. |
| `Crc32.Crc.Init` | src/oboskrnl/gpt.c:173-183 | The nested loops fill the table with what eight shifts make of each byte. |
| `Crc32.Crc.Bytes` | src/oboskrnl/gpt.c:197-204 | The table-driven code computes the bit-serial CRC-32, whether the table was filled before or not. |
| `Crc32.Crc.BytesFromPrevious` | src/oboskrnl/gpt.c:189-196 | From the checksum of any a the code computes the checksum of a followed by the data. |

## Left out

- Heap.Heap.Allocate: requests above 2^64 less four pages are excluded by a precondition, because there a new region does not serve the request (`HeapModel.FreshFitsIff`).
- Heap.Heap.Free: the magic numbers that tell a block from other memory are not modelled; the caller passes 0 or a block in use.
- Heap.Heap.Reallocate: a fault on the copy to address 0 is not modelled; the copy writes there.
- Heap: links between nodes and regions are sequences, and `ZeroAllocate`, `QueryBlockSize` and the KASAN shadow bytes are left out.
- HashMap.Map.constructor: requires at most 32768 buckets, because the distance has 16 bits.
- HashMap.Map.GetWithHash: requires an empty bucket or the key, without either of which the probe does not end (`RobinHood.ProbeEndsIff`).
- HashMap.Map.DeleteWithHash: requires the same.
- HashMap.Map.SetWithHash: requires an empty bucket or the key when the growth check does not fire (`RobinHood.SetEndsIff` is the exact condition), and at most 32768 buckets, because the distance has 16 bits.
- RbTree.Head.Insert: keys are integers, compared by their order, instead of an arbitrary comparison function.
- PhysMem.Allocator.Free: one list, without the split of a run at 4 GiB, and without waking threads that wait for memory.
- PhysPages.AlignedIff: alignments within 2^53 pages of 2^64, where sizes wrap around, are not covered.
- PhysPages.AllocKeeps: requests above 2^52 pages, which `ServedIff` shows to go wrong, and such alignments are excluded.
- WorkingSet.Context.RunPass: small pages only, and each page in at most one working set.
- WorkingSet.Context.PageIn: the wait for memory when a page cannot be swapped in is not modelled.
- Swap.Swapper.SwapIn: the panic when a page that was read cannot be mapped is not modelled.
- Swap.Swapper.ChangeProvider: that the frames pages go through are never given back is not modelled.
- AddressSpace.Context.Alloc: anonymous mappings without reservation, of one page size; swapping the new pages out and memory shortages are not modelled; for ranges that run past 2^64 only the addresses mapped are stated.
- AddressSpace.Context.Free: taking the pages off the working set and the referenced list and giving back their frames are not modelled.
- SchedRun.RunSafety: `WorkStealing` returns at its start and has no step; a thread's exit, timers, locks and register contexts are not modelled.
- Scheduler.Kernel.Schedule: lists are sequences; their links are in `ThreadList` and, over runs, in `SchedLinks`.
- ThreadList.List.Append: the null checks of list, node and thread are not modelled.
- Locks, interrupt levels, device drivers, the file system, ACPI, PCI and architecture code are left out.
