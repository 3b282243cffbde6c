# EduOS: verified models of the kernel's data structures

EduOS is a teaching kernel for the i386. These Dafny modules model its stateful components on
the level of the pointers, links, bitmap words, table entries and sectors that the C code
reads and writes, and prove what the components are for.

| modules | component |
|---|---|
| `RbTheory`, `RbTree` | red-black trees with parent pointers: rotations, insertion and erasure fix-ups, walks |
| `CfsTheory`, `Cfs` | the completely fair scheduler: run queue, virtual time, fairness over runs |
| `PageCache` | the page cache: tree index and recency list over the same descriptors |
| `FatVolume`, `FatChains`, `FatFiles` | FAT32 in three layers: sector bytes, table entries, chains and file contents |
| `Pmm`, `Vmm` | the frame allocator and the two-level page tables that live in its frames |
| `Kmalloc` | the kernel heap |
| `ProcQueue`, `PrioritySched`, `Mlfq` | process queues, the priority scheduler with aging, the multi-level feedback queue |
| `LinkedList`, `PageReclaim` | circular lists, the active and inactive page lists |
| `LongDivision` | 64-bit division |
| `MQueue`, `Checksum` | message queues, the Internet checksum |
| `Machine`, `Sequences`, `Bits` | pointers, lists as sequences, the bits of words |

How to read them:

- Memory is explicit. Nodes, list links, block headers and page frames are kept in maps from
  addresses or in sequences of frames, and a pointer is an address, 0 being NULL. Two pointers
  may therefore be equal, and what a store does to other structures has to be proved.
- A method takes the state before and returns the state after; ghost parameters carry the
  abstract value (a tree, the sequence of a list, a map, the chains of all files) that an
  invariant named `Valid`, `Shaped`, `Indexed`, `Shows`, `Sound` or the like ties to the state.
  Every operation starts from and ends in that invariant, so it holds over every run.
- Specification functions (`Insert`, `Tick`, `Evict`, `ScanInactive`, `Overlay`, `Flat` and so
  on) say what an operation means on the abstract value, and lemmas prove what the component
  promises about them: order, fairness, conservation, round trips, bounds.
- The success of allocations, the clock and the contents of fresh buffers are parameters; the
  address of a new descriptor is any unused one.
- Where the code keeps a promise under a condition only, the condition is stated as an
  equivalence: `TickBounded`, `EnqueueTask`, `ReadLengthExact`, `ReadsContents`, `FileRead`,
  `FileWrite`, `WriteThenRead`, `FreeFrame`, `FreeRun`, `NeedExact`, `SplitTiled`, `Tick`,
  `DivMod`, `Create`, `Unlink`, `CarryMatters`, `IpChecksum`, `ZeroMeans`. Inputs at which the
  promise fails are given by `TickUnbounded`, `EnqueueBehind`, `ReadsTooFar`, `WriteWraps`,
  `GivesAwayFrame0`, `NeverEnds`, `NeedWraps`, `CreatedFull`, `UnlinkedInUse` and `BoundIsSharp`.
- Results over whole runs are methods that perform the run on the pointer structures (`Rounds`,
  `AgeFor`, `Run`, `Drain`, `FreeAll`), next to lemmas about every sequence of abstract states
  (`FairRun`, `EqualShares`, `SharesByWeight`, `NoStarvation`, `EveryRunIsFair`); round trips are
  methods that call both operations (`WriteThenRead`, `MapThenTranslate`, `RoundTrip`, `FreeTwice`,
  `Deliver`).

## Model

| member | source | states |
|---|---|---|
| `RbTree.RotateLeft` | lib/rbtree.c:13-32 | the pointer stores turn the linked tree into its left rotation at that node; the in-order sequence, the node set and every record outside the tree are unchanged |
| `RbTree.RotateRight` | lib/rbtree.c:37-56 | the mirror image |
| `RbTree.LinkNode` | include/rbtree.h:170-176 | a node hung into an empty place is a red leaf there; the rest of the tree is as it was |
| `RbTheory.RecolorStep` | lib/rbtree.c:69-79 | red uncle: recolouring keeps every rule but the one red-red edge, which moves two levels up |
| `RbTheory.InnerStep` | lib/rbtree.c:81-87 | new node on the inner side: a rotation of the parent turns it into the outer case |
| `RbTheory.OuterStep` | lib/rbtree.c:89-91 | black uncle, outer side: one rotation of the grandparent removes the red-red edge and keeps all black heights |
| `RbTheory.InsertEnds` | lib/rbtree.c:117-118 | without a red-red edge, blackening the root gives a red-black tree |
| `RbTree.InsertStep` | lib/rbtree.c:65-115 | one turn of the loop keeps the invariant (only the red edge above the node may be wrong) and moves the node up |
| `RbTree.InsertColor` | lib/rbtree.c:61-118 | from a red-black tree with one freshly linked red leaf: red-black again, parent and child links agree, in-order sequence and node set unchanged, the loop ends |
| `RbTree.InsertAt` | lib/rbtree.c:61-118 | rb_link_node and rb_insert_color together: the new node stands exactly between what was before and behind the hole |
| `RbTheory.RedSibling` | lib/rbtree.c:131-136 | red sibling: after the rotation the same subtree misses one black node and its sibling is black |
| `RbTheory.BlackNephews` | lib/rbtree.c:137-141 | black nephews: with the sibling red, the subtree of the parent misses one black node |
| `RbTheory.NearNephew` | lib/rbtree.c:143-148 | red near nephew: rotating the sibling keeps the invariant and makes the far nephew red |
| `RbTheory.FarNephew` | lib/rbtree.c:149-155 | red far nephew: one rotation pays the missing black node and the whole tree is red-black |
| `RbTheory.EraseStarts` | lib/rbtree.c:240-256 | taking out a node with at most one child leaves a red-black tree if the node was red, and one missing black node if it was black |
| `RbTree.EraseStepLeft` | lib/rbtree.c:128-156 | one turn of the loop for a left child, possibly NULL: the invariant is kept, and the node moves up or the loop is about to end |
| `RbTree.EraseStepRight` | lib/rbtree.c:157-185 | the mirror image |
| `RbTree.EraseColor` | lib/rbtree.c:123-189 | from a tree whose subtree misses one black node, starting at a possibly NULL child: red-black again, in-order sequence unchanged, the loop ends |
| `RbTree.RaiseChild` | lib/rbtree.c:240-251 | a node with at most one child is replaced by that child, all links right |
| `RbTree.PromoteSuccessor` | lib/rbtree.c:203-238 | the successor takes the place and colour of the erased node and leaves its own place to its right child, in the adjacent case too |
| `RbTheory.PromotionInorder` | lib/rbtree.c:203-238 | promoting the successor takes exactly the erased node out of the in-order sequence |
| `RbTree.EraseOuter` | lib/rbtree.c:194-256 | rb_erase with zero or one child |
| `RbTree.EraseInner` | lib/rbtree.c:194-256 | rb_erase with two children, the successor adjacent or not |
| `RbTree.Erase` | lib/rbtree.c:194-256 | every red-black tree and every node in it: red-black again with agreeing links, the in-order sequence without exactly that node, all records outside the tree and of the erased node untouched |
| `RbTheory.HeightBound` | lib/rbtree.c:61-256 | a red-black tree of n nodes has height at most 2 * log2(n + 1), written as 2^height <= (n + 1)^2 |
| `RbTheory.StepsBound` | lib/rbtree.c:61-256 | a descent that takes at most the height in steps takes at most 2 * log2(n + 1) of them |
| `RbTree.First` | lib/rbtree.c:261-271 | the first node of the in-order sequence, NULL for the empty tree |
| `RbTree.Last` | lib/rbtree.c:276-286 | the last node of the in-order sequence |
| `RbTree.Next` | lib/rbtree.c:291-309 | the in-order successor of a linked node, NULL behind the last one and for a cleared node |
| `RbTree.Prev` | lib/rbtree.c:314-332 | the in-order predecessor of a linked node, NULL before the first one and for a cleared node |
| `RbTree.Member` | include/rbtree.h:104-107 | a linked node is never its own parent, so rb_empty_node tells linked nodes from cleared ones |
| `RbTree.Clear` | include/rbtree.h:112-115 | clearing an unlinked node makes rb_empty_node true of it and leaves the tree alone |
| `CfsTheory.Weights` | include/process/cfs_sched.h:112-137 | weights fall strictly with the nice value from 88761 by 1024 at nice 0 to 15, and the detour through the static priority loses nothing |
| `CfsTheory.LevelStep` | include/process/cfs_sched.h:112-137 | one nice level is worth a factor between 1.2 and 1.28 in weight |
| `CfsTheory.DeltaFairExact` | kernel/process/cfs_sched.c:225-234 | the virtual time of a run time is 1024 / weight of it, rounded down: twice the weight pays half |
| `CfsTheory.DeltaFairBound` | kernel/process/cfs_sched.c:225-234 | so a tick adds some virtual time at every weight of the table, and at most 1000000 * 1024 / 15 = 68266666 |
| `CfsTheory.InsertOrdered` | kernel/process/cfs_sched.c:98-127 | insertion behind all tasks that are not ahead keeps the order by virtual run time, earliest enqueued first among equals |
| `CfsTheory.TickFair` | kernel/process/cfs_sched.c:149-258 | one scheduling round keeps the order and the fairness invariant |
| `CfsTheory.FairRun` | kernel/process/cfs_sched.c:149-258 | so does every run of rounds |
| `CfsTheory.StaysSpread` | kernel/process/cfs_sched.c:149-258 | once the spread of virtual run times is within the largest step of a tick, it is so after every round of every run |
| `CfsTheory.EqualShares` | kernel/process/cfs_sched.c:149-258 | two tasks of equal weight that start level never differ by more than one tick of run time, after any number of rounds and whatever else is queued |
| `CfsTheory.SharesByWeight` | kernel/process/cfs_sched.c:149-258 | any two tasks that start level share the time in proportion to their weights: after any number of rounds, whatever else is queued, the run time of one for its weight exceeds that of the other for its weight by at most one tick and the rounding of the division |
| `Cfs.StepsByWeight` | kernel/process/cfs_sched.c:225-234 | in every valid run queue the virtual cost of a tick is 1024 ticks divided by the weight of the task, rounded down, and at most that of the lightest one, so the fairness results apply to it |
| `CfsTheory.NextMinBounds` | kernel/process/cfs_sched.c:74-93 | the update of min_vruntime never lowers it, and it is a lower bound afterwards exactly when it was one before |
| `CfsTheory.InsertBounded` | kernel/process/cfs_sched.c:98-127 | an insertion keeps min_vruntime a lower bound exactly when the newcomer is not behind it |
| `CfsTheory.GoneBounded` | kernel/process/cfs_sched.c:132-144 | a removal keeps it a lower bound |
| `CfsTheory.TickBounded` | kernel/process/cfs_sched.c:149-258 | a round without cfs_task_waking keeps min_vruntime a lower bound if and only if the task that ran is alone or not overtaken by its successor |
| `CfsTheory.TickUnbounded` | kernel/process/cfs_sched.c:149-258 | a queue of two tasks where it is not kept |
| `Cfs.Init` | kernel/process/cfs_sched.c:52-68 | an empty run queue that satisfies the invariant |
| `Cfs.UpdateMinVruntime` | kernel/process/cfs_sched.c:74-93 | min_vruntime becomes the larger of itself and the least queued virtual run time |
| `Cfs.FindPlace` | kernel/process/cfs_sched.c:106-117 | the descent ends at the one hole behind every task that is not ahead, knows whether it is the leftmost one, and takes at most 2 * log2(n + 1) steps |
| `Cfs.EnqueueEntity` | kernel/process/cfs_sched.c:98-127 | the queue is the ordered insertion, the cached leftmost node is the first of the tree, count and weight grow by the task |
| `Cfs.DequeueEntity` | kernel/process/cfs_sched.c:132-144 | exactly that task leaves the queue, the cached leftmost node is the first of the rest, the node is cleared |
| `Cfs.EnqueueTask` | kernel/process/cfs_sched.c:149-175 | nr_running and total_weight stay the count and the weight sum, the queue is the ordered insertion; a task without a weight gets that of its nice value and a new one starts at min_vruntime, nothing else of it changes; min_vruntime stays a lower bound exactly when it was one and the task is new or not behind it |
| `Cfs.EnqueueBehind` | kernel/process/cfs_sched.c:149-175 | two tasks whose enqueueing loses the bound, the second having run less than the first |
| `Cfs.DequeueTask` | kernel/process/cfs_sched.c:180-203 | exactly that task leaves, count and weight stay right, min_vruntime does not fall and stays a lower bound |
| `Cfs.PickNextTask` | kernel/process/cfs_sched.c:209-219 | NULL exactly for the empty queue, otherwise the least virtual run time with the earliest enqueued first among equals |
| `Cfs.UpdateCurr` | kernel/process/cfs_sched.c:239-258 | the running task has run 1000000 ns more and pays 1024 / weight of that in virtual time, rounded down; the queue is unchanged, min_vruntime does not fall and stays a lower bound |
| `Cfs.TaskWaking` | kernel/process/cfs_sched.c:283-294 | a waking task is at or ahead of min_vruntime and not behind where it was; no other task and no place in the queue changes |
| `Cfs.WakeUp` | kernel/process/cfs_sched.c:283-294 | cfs_task_waking before cfs_enqueue_task keeps min_vruntime a lower bound |
| `Cfs.Round` | kernel/process/cfs_sched.c:149-258 | pick, dequeue, run and enqueue on the pointer structures refine one round of the abstract queue |
| `Cfs.Rounds` | kernel/process/cfs_sched.c:149-258 | any number of rounds on the pointer structures are rounds of the abstract queue; the spread of virtual run times stays within the largest step of a tick, every two tasks of equal weight that start level stay within one tick of run time, and any two that start level share the time in proportion to their weights |
| `Cfs.SetTaskNice` | kernel/process/cfs_sched.c:299-317 | out-of-range values are stored as -20 or 19 and others as they are, the static priority is 120 more and the weight that of the value, virtual and real run time stay, the queue invariant is kept |
| `Cfs.ReweightTask` | kernel/process/cfs_sched.c:330-346 | whether the task is queued or not, total_weight stays the sum of the queued weights and the order is kept |
| `FatVolume.Places` | kernel/fs/fat32.c:52-56 | table entries, tables and clusters lie apart on the disk |
| `FatVolume.EntryBytes` | kernel/fs/fat32.c:63-121 | the entry of cluster c that a volume shows is the low 28 bits of the four bytes, lowest first, from byte 4 * c of the first table on |
| `FatVolume.ClusterBytes` | kernel/fs/fat32.c:52-56 | the bytes of cluster c that a volume shows are those of its sectors, cluster 2 being the first of the data area |
| `FatVolume.ClusterToByte` | kernel/fs/fat32.c:52-56 | the byte address of a cluster |
| `FatVolume.ReadFat` | kernel/fs/fat32.c:63-83 | the 28-bit entry that the volume has for a cluster in range, which EntryBytes ties to the bytes, the bad-cluster mark for any other number |
| `FatVolume.WriteEntry` | kernel/fs/fat32.c:94-112 | the sector store changes the four bytes of one entry of the first table, keeps its four reserved bits and every other byte |
| `FatVolume.CopySector` | kernel/fs/fat32.c:114-118 | copying the sector makes the second table a copy of the first again, and no entry or cluster changes |
| `FatVolume.WriteFat` | kernel/fs/fat32.c:88-121 | one entry changes, all clusters and all other entries are as they were; in bytes, the four bytes of the entry in the first table hold the value and the four reserved bits they held before, and with mirrored tables, which stay mirrored, no byte of the disk but these and their copies changes; false exactly for numbers out of range |
| `FatVolume.ReadCluster` | kernel/fs/fat32.c:171-179 | the bytes that the volume has for a cluster in range |
| `FatVolume.WriteCluster` | kernel/fs/fat32.c:184-192 | one cluster changes, no other cluster and no entry |
| `FatChains.AllocCluster` | kernel/fs/fat32.c:126-141 | the lowest free cluster, marked as end of a chain; 0 exactly when there is none |
| `FatChains.AllocKeeps` | kernel/fs/fat32.c:126-141 | allocation keeps all files in range, acyclic, ended and disjoint, and the new cluster is on none of them |
| `FatChains.ExtendKeeps` | kernel/fs/fat32_file.c:137-221 | linking a fresh cluster behind one file keeps all files sound and makes that chain longer by it |
| `FatChains.FreeCluster` | kernel/fs/fat32.c:146-164 | ends on every table, cyclic ones too, frees exactly the trail of its argument, and changes no data |
| `FatChains.TrailOfChain` | kernel/fs/fat32.c:146-164 | the trail of the first cluster of a chain is the chain |
| `FatChains.FreeKeeps` | kernel/fs/fat32.c:146-164 | freeing one file keeps the others sound |
| `FatFiles.Skip` | kernel/fs/fat32_file.c:70-74 | the loop over the clusters before the position reaches the cluster with that index and its predecessor |
| `FatFiles.ReadClusters` | kernel/fs/fat32_file.c:86-107 | the reading loop returns the slice of the concatenated clusters that starts at the position |
| `FatFiles.ReadLengthExact` | kernel/fs/fat32_file.c:65-68 | the 32-bit length computed is the smaller of the request and the rest of the file if and only if pos + count does not wrap or the chain ends at the file size |
| `FatFiles.ReadsTooFar` | kernel/fs/fat32_file.c:65-68 | a file of two bytes of which a read at position 1 returns 511 |
| `FatFiles.ReadsContents` | kernel/fs/fat32_file.c:65-107 | the bytes read are the slice of the contents of the file under exactly that condition |
| `FatFiles.FileRead` | kernel/fs/fat32_file.c:43-115 | end of file, no memory, and otherwise exactly the bytes of the chain from the position on, which are the slice of the contents if and only if pos + count does not wrap or the chain ends at the file size; the position advances by them in 32-bit arithmetic |
| `FatFiles.FirstCluster` | kernel/fs/fat32_file.c:132-144 | an empty file gets its first cluster or the disk is full |
| `FatFiles.Seek` | kernel/fs/fat32_file.c:146-169 | the cluster and offset of the position, with one new cluster if the position is at the end of the chain |
| `FatFiles.GrowthByOne` | kernel/fs/fat32_file.c:137-221 | allocation and linking of one cluster extend the chain by it, keep all other files and change no contents |
| `FatFiles.WriteOne` | kernel/fs/fat32_file.c:180-202 | one cluster takes what fits, everything else on the volume stays |
| `FatFiles.Advance` | kernel/fs/fat32_file.c:204-220 | the next cluster of the chain or a new one behind it; 0 exactly when the disk is full |
| `FatFiles.WriteClusters` | kernel/fs/fat32_file.c:178-221 | everything is written, or the disk is full and so is the last cluster of the chain |
| `FatFiles.ClustersConserved` | kernel/fs/fat32.c:126-141 | over a write the free clusters and the clusters of the file add up to the same number: a chain grows by free clusters and nothing else |
| `FatFiles.AllSpaceUsed` | kernel/fs/fat32_file.c:178-221 | the number of bytes written is the smaller of the request and the space, that is the rest of the chain plus all free clusters |
| `FatFiles.FileWrite` | kernel/fs/fat32_file.c:120-235 | at any position within the file or at its end, for every volume: no space if and only if the rest of the chain and the free clusters give none, and then nothing changes; otherwise the smaller of the request and that space is written and reported, the chain holds the bytes at the position, and the contents are the old ones overlaid by them if and only if the end does not reach 2^32; all chains stay sound; without memory the contents are unchanged |
| `FatFiles.WriteWraps` | kernel/fs/fat32_file.c:225-232 | one byte more behind a file of 2^32 - 1 bytes puts the position to 0 and leaves the size, so the byte is not in the contents |
| `FatFiles.OtherContents` | kernel/fs/fat32_file.c:120-235 | a write to one file leaves the contents of every other file alone |
| `FatFiles.WriteThenRead` | kernel/fs/fat32_file.c:43-235 | a write, a seek back and a read of as many bytes as were written: the bytes come back if and only if the end does not reach 2^32 or the position was before the end of the file; for every volume, full ones included |
| `FatFiles.Release` | kernel/fs/fat32.c:146-164 | freeing a file by its first cluster frees exactly its clusters and keeps all other files |
| `Pmm.SetBit` | kernel/mm/pmm.c:26-31 | exactly one frame of the bitmap becomes used |
| `Pmm.ClearBit` | kernel/mm/pmm.c:36-41 | exactly one frame of the bitmap becomes free |
| `Pmm.Init` | kernel/mm/pmm.c:56-117 | exactly the frames from the first page boundary behind the kernel and the bitmap on are free, the counters are right, frame 0 is used |
| `Pmm.NeverEnds` | kernel/mm/pmm.c:99-112 | with more than 0xFFFFF000 bytes of memory no step of the loop counter ends the loop |
| `Pmm.AllocFrame` | kernel/mm/pmm.c:122-140 | the lowest free frame and no other leaves the free set; 0 exactly when none is free; the counters stay right |
| `Pmm.FindRun` | kernel/mm/pmm.c:150-175 | the lowest run of free frames of that length, or none exists |
| `Pmm.AllocFrames` | kernel/mm/pmm.c:145-180 | that run and no other frame leaves the free set; 0 exactly when there is no run or nothing is asked for |
| `Pmm.FreeFrame` | kernel/mm/pmm.c:185-204 | exactly the given frame becomes free; out-of-range and free frames change nothing but keep the counters right; frame 0 stays reserved if and only if the address does not lie inside frame 0 without being 0 |
| `Pmm.FreeRun` | kernel/mm/pmm.c:209-214 | for every 32-bit address and count: every existing frame that the run meets, which goes on at frame 0 behind the last address, is free afterwards but for one given by address 0, no other frame changes; frame 0 stays reserved if and only if the address is page aligned or the run neither starts in frame 0 nor passes the last address |
| `Pmm.GivesAwayFrame0` | kernel/mm/pmm.c:185-214 | the addresses 0x800, and 0xFFFFF800 with two frames: both free frame 0 |
| `Pmm.RoundTrip` | kernel/mm/pmm.c:145-214 | freeing what was allocated restores the free set |
| `Vmm.EntryParts` | kernel/mm/vmm.c:23-58 | an entry gives back the frame and the low flags it was made of, and is present exactly when flag 0 is set |
| `Vmm.RightsFollow` | kernel/mm/vmm.c:246-392 | what a page allows is what its page entry and its directory entry both allow: a store to one page entry and at most one directory entry that held no table changes the rights of that page only |
| `Vmm.Grants` | kernel/mm/vmm.c:246-370 | a page mapped with some flags is accessible, writable and open to the user exactly as they say, as far as a directory entry that was there before allows it; a new directory entry takes nothing away |
| `Vmm.TableAdded` | kernel/mm/vmm.c:246-305 | a fresh zeroed page table in an empty place changes no translation in any directory and keeps all table frames distinct, unshared and allocated |
| `Vmm.EntrySet` | kernel/mm/vmm.c:246-305 | a store into a page table shows in one page of one directory |
| `Vmm.EnsureTable` | kernel/mm/vmm.c:246-305 | the table that is there, its entry unchanged, or a new one entered with the given flags; no other directory entry changes; failure exactly without free frames, and then nothing has changed |
| `Vmm.MapPageInDirectory` | kernel/mm/vmm.c:246-305 | the tables refine a flat map: this page of this directory gets frame and flags, no other page of any directory changes, no frame outside the paging structures is written; the rights of the page, through both levels, are those of the flags as far as a directory entry that was there before allows them, and all other pages keep theirs |
| `Vmm.VirtToPhysInDirectory` | kernel/mm/vmm.c:310-337 | what the flat map says for the page plus the offset, 0 for an absent page or no directory |
| `Vmm.MapThenTranslate` | kernel/mm/vmm.c:246-337 | mapping an address and translating it gives the frame it was mapped to plus the offset if the given flags have the present bit and 0 otherwise; the mapping fails only without a directory or free frames, and then nothing changes |
| `Vmm.MapPage` | kernel/mm/vmm.c:342-370 | the page has the given frame, is present, and has the other given flags; no other page of any directory changes its entry or its rights; panics only without free frames |
| `Vmm.UnmapPage` | kernel/mm/vmm.c:375-392 | this page is absent and gives no rights, all others are as they were with the rights they had |
| `Vmm.CreatePageDirectory` | kernel/mm/vmm.c:133-204 | a fresh directory without user pages, with the kernel half of the current one and the recursive entry; every other directory, the borrowed current one included, translates as before with the same rights; on failure no frame is lost |
| `Vmm.BuildDirectory` | kernel/mm/vmm.c:133-204 | the stores change only the new directory and the temporary table |
| `Vmm.DestroyPageDirectory` | kernel/mm/vmm.c:209-221 | exactly the directory frame becomes free; its page tables stay allocated, other directories translate as before |
| `Kmalloc.ExpandHeap` | kernel/mm/kmalloc.c:35-80 | one more free block at the end, as large as the request with a header rounded up to pages; fails exactly without frames or beyond the limit of the heap, and then nothing changes |
| `Kmalloc.SplitBlock` | kernel/mm/kmalloc.c:85-105 | a block with room to spare is cut into two that tile its place, links agree; otherwise nothing changes |
| `Kmalloc.SplitTiled` | kernel/mm/kmalloc.c:85-105 | a cut leaves the blocks tiling the heap if and only if both parts have room for a header |
| `Kmalloc.Swallow` | kernel/mm/kmalloc.c:117-132 | one step of the forward loop makes two neighbours one block |
| `Kmalloc.MergeForward` | kernel/mm/kmalloc.c:116-132 | the forward loop swallows the free blocks up to the next used one |
| `Kmalloc.MergeBlocks` | kernel/mm/kmalloc.c:110-138 | a free block becomes one with exactly the maximal run of free blocks around it; the recursion ends |
| `Kmalloc.Init` | kernel/mm/kmalloc.c:143-158 | one free block of 69632 bytes if there is room and memory for it, no block otherwise, and nothing in use |
| `Kmalloc.NeedExact` | kernel/mm/kmalloc.c:163-176 | the 32-bit block size is the request rounded up to a multiple of 8 and a header, and has room for the request, if and only if the request is at most 0xFFFFFFE8; it has room for a header if and only if the request is not between 0xFFFFFFE9 and 0xFFFFFFF8 |
| `Kmalloc.NeedWraps` | kernel/mm/kmalloc.c:163-176 | requests at the top of the range that get too small a block |
| `Kmalloc.FirstFit` | kernel/mm/kmalloc.c:177-190 | the first free block that is large enough; NULL if and only if none is |
| `Kmalloc.TakenIs` | kernel/mm/kmalloc.c:85-105 | what taking a block means for the others: exactly the taken bytes change from free to used, every other free block stays, and so does the rest of a block that is cut |
| `Kmalloc.TakeBlock` | kernel/mm/kmalloc.c:179-187 | that block is in use, whole if less than 36 bytes would be left over, and otherwise cut to exactly the size asked for with a free block of all the rest behind it; every other block stays, free ones too; the free bytes fall by exactly the size of the block |
| `Kmalloc.Alloc` | kernel/mm/kmalloc.c:163-200 | first fit, cut as by TakeBlock, else a new block at the end and all other blocks as they were: not in use before, large enough and at most 35 bytes larger than needed unless new, links and tiling right, no two free neighbours; NULL if and only if the request is 0 or above 1 MB, or no block fits and the heap cannot grow, and then nothing changes |
| `Kmalloc.AllocAtEnd` | kernel/mm/kmalloc.c:190-200 | the new block is exactly the extension of the heap; fails exactly when the heap cannot grow |
| `Kmalloc.Kfree` | kernel/mm/kmalloc.c:240-267 | exactly that block is no longer in use and its free neighbours are merged; a pointer whose header says free, be it a block or one swallowed by a merge, changes nothing; afterwards the pointer is of that kind |
| `Kmalloc.FreeTwice` | kernel/mm/kmalloc.c:240-267 | a second kfree of the same pointer changes nothing, also when the first one merged the block into its predecessor |
| `Kmalloc.Realloc` | kernel/mm/kmalloc.c:272-303 | the same block if it is large enough, else a new one, cut to size, replaces it among the blocks in use; NULL if and only if the size is 0, which frees the block, or the block is too small and kmalloc fails, and then the old block stays |
| `Kmalloc.PayloadsApart` | kernel/mm/kmalloc.c:163-303 | different blocks, in use or free, lie apart with their headers and inside the heap, so no payload meets another block |
| `Kmalloc.OneBlockLeft` | kernel/mm/kmalloc.c:110-267 | once nothing is in use, in whatever order it was freed, the heap is one free block |
| `Kmalloc.FreeAll` | kernel/mm/kmalloc.c:240-267 | kfree of every block in use, in any order and some of them twice, ends in one free block that is the whole heap |
| `Kmalloc.Conservation` | kernel/mm/kmalloc.c:327-350 | used and free bytes add up to the heap |
| `Kmalloc.GetStats` | kernel/mm/kmalloc.c:327-350 | the statistics are the exact numbers and bytes of all, free and used blocks, used plus free is the heap |
| `Kmalloc.VerifyHeap` | kernel/mm/kmalloc.c:374-411 | true for every valid heap of at most 10000 blocks and for no larger one |
| `PageCache.CompareCacheKey` | kernel/mm/page_cache.c:49-57 | the sign decides the lexicographic order of (inode, offset) |
| `PageCache.SortedUnique` | kernel/mm/page_cache.c:94-153 | in a tree sorted by key no two cached pages share a key, so the cache stands for a map from keys to pages |
| `PageCache.Init` | kernel/mm/page_cache.c:23-44 | an empty cache that satisfies the invariant and stands for the empty map |
| `PageCache.IndexFinds` | kernel/mm/page_cache.c:62-89 | finding a page is looking its key up in the map the cache stands for, both ways |
| `PageCache.IndexTouched` | kernel/mm/page_cache.c:62-89 | dating a page leaves the map alone |
| `PageCache.IndexAdded` | kernel/mm/page_cache.c:94-153 | adding a page under a new key is adding to the map |
| `PageCache.IndexDropped` | kernel/mm/page_cache.c:158-187 | removing a page is removing its key from the map |
| `PageCache.IndexAmong` | kernel/mm/page_cache.c:313-336 | reclaiming is restricting the map to the pages left |
| `PageCache.IndexOutside` | kernel/mm/page_cache.c:362-374 | invalidating an inode is removing exactly its keys from the map |
| `PageCache.FindPage` | kernel/mm/page_cache.c:66-85 | the page with that key, NULL exactly when there is none, in at most 2 * log2(n + 1) steps |
| `PageCache.FindPlace` | kernel/mm/page_cache.c:126-139 | for a key that is not cached the descent ends at the one hole between the smaller and the larger keys, in at most 2 * log2(n + 1) steps |
| `PageCache.Lookup` | kernel/mm/page_cache.c:62-89 | the result is that of the map from keys to pages, which does not change; a hit moves the page to the front and dates it, a miss changes the miss count only; tree, list and count stay in agreement |
| `PageCache.AddToTree` | kernel/mm/page_cache.c:126-145 | the new descriptor joins the index in key order |
| `PageCache.Add` | kernel/mm/page_cache.c:94-153 | an existing page is returned as by a lookup; otherwise a full cache gives up its oldest reclaimable page if it has one, with exactly its frame and its key, and the new page is the most recently used and the map gains exactly its key; NULL exactly for a new key without memory; the counters change accordingly |
| `PageCache.Remove` | kernel/mm/page_cache.c:158-187 | the page leaves tree, list and count, its key leaves the map, and its frame is given back |
| `PageCache.EvictCut` | kernel/mm/page_cache.c:313-336 | reclaim empties a stretch at the old end of everything reclaimable and nothing else, and stops early only when it has its number |
| `PageCache.EvictSpares` | kernel/mm/page_cache.c:313-336 | in terms of the pages: every locked or referenced page stays, no older page that is neither stays where a newer one goes, and fewer than n go only when every page left is locked or referenced |
| `PageCache.Reclaim` | kernel/mm/page_cache.c:313-336 | the walk, which removes pages under way, leaves exactly that list and the map restricted to it, gives back exactly the frames of the pages it removed, in its order, and counts them; no locked or referenced page goes, nothing older that could go stays, and fewer than asked for go only when nothing else could |
| `PageCache.InvalidateInode` | kernel/mm/page_cache.c:362-374 | exactly the pages of the inode go, with their keys and their frames; the walk with its saved rb_next meets every page once in key order; the list keeps its order and the counters their values |
| `LinkedList.InitListHead` | include/list.h:37-41 | an empty ring |
| `LinkedList.AddBetween` | include/list.h:46-54 | the new element stands between the two neighbours of the ring, nothing else is written |
| `LinkedList.ListAdd` | include/list.h:59-62 | right behind the head |
| `LinkedList.ListAddTail` | include/list.h:67-70 | right before the given element or head |
| `LinkedList.ListDel` | include/list.h:84-89 | exactly that element leaves the ring, its own links are null |
| `ProcQueue.Push` | kernel/process/priority_sched.c:76-92 | the process is at the tail of its queue, the other queues are as they were, counts and links agree |
| `ProcQueue.Pull` | kernel/process/priority_sched.c:116-141 | exactly that process leaves its queue, from head, middle or tail |
| `ProcQueue.EmptyQueues` | kernel/process/priority_sched.c:39-55 | freshly initialised queues hold nobody |
| `PrioritySched.Init` | kernel/process/priority_sched.c:39-55 | all queues are empty and the invariant holds |
| `PrioritySched.Enqueue` | kernel/process/priority_sched.c:59-100 | at the tail of the queue of its priority, 0 to 31 being kept and others pulled in; a bitmap bit is set exactly when its queue is not empty |
| `PrioritySched.Dequeue` | kernel/process/priority_sched.c:105-149 | exactly that process leaves; bitmap, counts and places stay right |
| `PrioritySched.BestQueue` | kernel/process/priority_sched.c:154-167 | the lowest set bit of the bitmap names the best non-empty queue, and its head has that priority |
| `PrioritySched.PickNext` | kernel/process/priority_sched.c:154-190 | the first process of the best non-empty queue leaves it; NULL exactly when all are empty |
| `PrioritySched.Visit` | kernel/process/priority_sched.c:216-251 | one process of a queue is aged or left, whatever queue it passes to |
| `PrioritySched.AgeQueue` | kernel/process/priority_sched.c:207-252 | the inner loop ages every process of one queue once although it moves processes away under its own feet |
| `PrioritySched.Aging` | kernel/process/priority_sched.c:195-253 | nothing happens within 100 ticks of the last pass; then a pass ages every queued process exactly once: one that has waited more than 200 ticks and is not at priority 0 gains two priorities, or the one that is left, and starts to wait again, all others are unchanged; nobody joins or leaves |
| `PrioritySched.NextPass` | kernel/process/priority_sched.c:195-253 | aging called every tick makes a pass one interval after the last |
| `PrioritySched.OneBoost` | kernel/process/priority_sched.c:195-253 | within 300 ticks a waiting process is boosted |
| `PrioritySched.WaitingEnds` | kernel/process/priority_sched.c:195-253 | from any moment of its wait on, a process reaches priority 0 within its patience |
| `PrioritySched.PatienceIs` | kernel/process/priority_sched.c:32-34 | the bound is 300 * ceil(p / 2) ticks |
| `PrioritySched.NoStarvation` | kernel/process/priority_sched.c:32-34 | in every run of scheduler states with an aging pass call each tick, whatever else is enqueued, dequeued or picked in between, a process left queued at priority p is in queue 0 from 300 * ceil(p / 2) ticks on |
| `PrioritySched.AgeFor` | kernel/process/priority_sched.c:195-253 | the pass called n ticks in a row on the real queues: every process that was queued is still queued, and those whose bound is within n are in queue 0 |
| `Mlfq.Init` | kernel/process/mlfq_sched.c:37-63 | five empty queues |
| `Mlfq.Enqueue` | kernel/process/mlfq_sched.c:68-105 | at the tail of the queue of its level, levels 0 to 4 being kept and others pulled in, with a slice of 100, 200, 400, 800 or 1600 ticks that is all left, and no time used |
| `Mlfq.Dequeue` | kernel/process/mlfq_sched.c:110-146 | exactly that process leaves, the others keep their places |
| `Mlfq.PickNext` | kernel/process/mlfq_sched.c:151-186 | the first ready or running process of the lowest-numbered level that has one; NULL exactly when all queued processes are blocked or terminated |
| `Mlfq.Tick` | kernel/process/mlfq_sched.c:191-225 | a running process pays a tick and, when its slice is used up, one level, never beyond the last, which is counted for the level it leaves; nothing else changes; every queued process stays in the queue of its level if and only if the process is queued nowhere, not running, not on its last tick or on the last level |
| `Mlfq.Drain` | kernel/process/mlfq_sched.c:265-276 | the inner loop appends a level to level 0 in order and empties it |
| `Mlfq.BoostAll` | kernel/process/mlfq_sched.c:247-278 | a boost that fires, 1000 ticks after the last, turns level 0 into L0 + L4 + L3 + L2 + L1 and empties the others; nobody is lost or doubled, exactly the moved processes get a full slice of 100 ticks; before its time nothing changes |
| `PageReclaim.AddPage` | kernel/mm/page_reclaim.c:70-94 | wherever the page was, it is now at the front of the inactive list and on no other place |
| `PageReclaim.RemovePage` | kernel/mm/page_reclaim.c:99-119 | the page is on no list, the other pages keep their places |
| `PageReclaim.MarkAccessed` | kernel/mm/page_reclaim.c:124-148 | the page is marked, and an inactive one moves to the front of the active list |
| `PageReclaim.DemoteOne` | kernel/mm/page_reclaim.c:165-197 | one turn of the active scan: a locked page is passed, an accessed one loses its mark and goes to the front, another one is demoted; fewer accessed pages lie ahead, or as many and the cursor is nearer to the head |
| `PageReclaim.ShrinkActive` | kernel/mm/page_reclaim.c:153-202 | ends although it puts pages back ahead of its cursor; at most n unlocked pages move to the inactive list, none is lost, and fewer than n only when nothing but the first page and locked pages is left; of the pages that are not accessed the oldest ones go, accessed ones only after all of these and without their mark |
| `PageReclaim.ChancesGiven` | kernel/mm/page_reclaim.c:165-197 | the second chance: an accessed page is demoted only when every unlocked page that is not accessed has been |
| `PageReclaim.ScanPartition` | kernel/mm/page_reclaim.c:207-270 | every page of the scanned list is kept, promoted or freed, in exactly one way |
| `PageReclaim.ScanFacts` | kernel/mm/page_reclaim.c:207-270 | only unlocked, unreserved, unaccessed, unreferenced pages are freed, only accessed ones that are not pinned are promoted, and if fewer than asked for are freed, every page kept is locked, reserved, or referenced without being accessed |
| `PageReclaim.ShrinkInactive` | kernel/mm/page_reclaim.c:207-270 | the loop performs exactly that scan, returns the freed frames once each, keeps both counters the list lengths and the ACTIVE flags exact; a promoted page is active and loses its accessed mark, pages passed over lose at most their dirty mark, locked and reserved ones nothing, and pages of no such list are untouched |
| `PageReclaim.Reclaim` | kernel/mm/page_reclaim.c:207-270 | the effect of one scan: exactly the pages it names leave the lists and give back their frames, each of them neither locked, reserved nor referenced; fewer than asked for only when no such page is left on the inactive list |
| `PageReclaim.TryToFreePages` | kernel/mm/page_reclaim.c:275-303 | demotion and two scans: exactly the pages it names leave the lists and give back their frames, once each, none of them locked, reserved or referenced; what is reported is their number, at most what was asked for, and less only when no such page is left on the inactive list |
| `LongDivision.NoBitLost` | lib/libgcc_compat.c:38-46 | shifting the remainder loses no bit, for divisors above 2^63 too |
| `LongDivision.DivideLoop` | lib/libgcc_compat.c:34-48 | the binary loop computes the quotient |
| `LongDivision.RemainderLoop` | lib/libgcc_compat.c:73-85 | the binary loop computes the remainder |
| `LongDivision.UDiv` | lib/libgcc_compat.c:15-49 | the quotient for all 64-bit operands, 0 for a zero divisor |
| `LongDivision.UMod` | lib/libgcc_compat.c:54-86 | the remainder for all 64-bit operands, 0 for a zero divisor |
| `LongDivision.Div` | lib/libgcc_compat.c:91-116 | the quotient rounded towards zero; INT64_MIN / -1 wraps to INT64_MIN |
| `LongDivision.Mod` | lib/libgcc_compat.c:121-145 | the remainder with the sign of the dividend |
| `LongDivision.DivMod` | lib/libgcc_compat.c:91-145 | n == q * d + r with |r| < |d| and the sign of n, if and only if the operands are not INT64_MIN and -1 |
| `MQueue.Create` | kernel/ipc/mqueue.c:83-128 | clamped limits and an empty list; the new queue is in order if and only if the attributes ask for no current messages |
| `MQueue.CreatedFull` | kernel/ipc/mqueue.c:83-128 | attributes with a current message count of 1 give a queue that is not in order |
| `MQueue.Send` | kernel/ipc/mqueue.c:185-246 | succeeds exactly with room in the queue, data of at most the message size, a priority below 32768 and memory; the errors in their order, each exactly when its condition holds and changing nothing; otherwise the message stands behind all of its own or a higher priority and before all others |
| `MQueue.InsertOrdered` | kernel/ipc/mqueue.c:221-235 | that place keeps the queue by falling priority and in order of arrival within a priority |
| `MQueue.Receive` | kernel/ipc/mqueue.c:251-297 | the first message leaves, whole; the errors change nothing |
| `MQueue.EveryRunIsFair` | kernel/ipc/mqueue.c:185-297 | over every run of sends and receives of the abstract queue: what was queued and what was accepted is, as multisets, what was received and what is left, the accepted messages being the successful sends in order; and nothing received was taken before a message that precedes it and was in the queue |
| `MQueue.RunSend` | kernel/ipc/mqueue.c:185-246 | a send on the linked list answers and acts as the abstract queue does |
| `MQueue.RunReceive` | kernel/ipc/mqueue.c:251-297 | so does a receive: it succeeds exactly when the buffer is large enough and the queue is not empty, with the first message |
| `MQueue.Run` | kernel/ipc/mqueue.c:185-297 | any run of sends and receives on the linked list gives, operation by operation, the replies of the abstract queue and ends in its state, so it is fair in the same sense |
| `MQueue.FirstComeFirstServed` | kernel/ipc/mqueue.c:185-297 | so messages of equal priority are received in the order of their sending |
| `MQueue.Drain` | kernel/ipc/mqueue.c:251-297 | receiving until the queue is empty yields every message in that order |
| `MQueue.SendTo` | kernel/ipc/mqueue.c:185-246 | the same verdicts as a send to one queue; the global message and byte counters stay the sums over all queues, and the other queues are untouched |
| `MQueue.ReceiveFrom` | kernel/ipc/mqueue.c:251-297 | the same for a receive, which succeeds exactly when the buffer is large enough and the queue is not empty |
| `MQueue.Unlink` | kernel/ipc/mqueue.c:150-180 | the counters stay the sums if and only if the unlinked queue was empty |
| `MQueue.UnlinkedInUse` | kernel/ipc/mqueue.c:150-180 | a closed queue that is unlinked with a message in it leaves the message in the counters |
| `Checksum.AddWords` | kernel/net/ip.c:43-53 | the sum of the words modulo 2^32, a last odd byte counting as the low half of a word |
| `Checksum.CarryMatters` | kernel/net/ip.c:43-57 | losing the carries out of 32 bits changes the folded sum if and only if there are any |
| `Checksum.BoundIsSharp` | kernel/net/ip.c:43-53 | 65538 words for which the code gives another checksum |
| `Checksum.FoldCarries` | kernel/net/ip.c:55-57 | the carry loop ends with the folded sum |
| `Checksum.IpChecksum` | kernel/net/ip.c:41-60 | the complement of the folded one's-complement sum if and only if the sum of the words stays below 2^32, as it does for up to 65537 words |
| `Checksum.StoredIsZero` | kernel/net/ip.c:119-131 | stored in its zeroed field, the checksum makes the checksum of the whole 0 |
| `Checksum.ZeroMeans` | kernel/net/ip.c:71-84 | which stored values make the checksum of the whole 0: the computed one and, where that is 0 for data other than 0, 0xFFFF |
| `Checksum.ByteOrder` | kernel/net/ip.c:41-60 | swapping the bytes of every word swaps the bytes of the checksum |
| `Checksum.Seal` | kernel/net/ip.c:119-131 | the sent header has checksum 0 and differs from the given one in the checksum field only |
| `Checksum.Accepts` | kernel/net/ip.c:71-84 | a header is accepted exactly when its version is 4 and its field holds the checksum, over the length it names, of the header with the field zeroed |
| `Checksum.Deliver` | kernel/net/ip.c:65-131 | every header of version 4 that is sealed as by ip_send is accepted by ip_rcv |
| `Checksum.Agreement` | kernel/net/ip.c:65-131 | the field test of ip_rcv is stricter than a checksum of 0 over the whole header in one case only: it refuses 0xFFFF where 0 was computed |

## Left out

- Update in place: the structures that the C code changes through pointers are records and
  memory maps that methods take and return, not class instances with `modifies` clauses. The
  stores of an operation and aliasing between pointers are modelled in the memory maps, with two
  deviations: where rb_set_parent_color stores colour and parent of the sibling
  (lib/rbtree.c:149 and 177), `RbTree` stores the colour only and leaves the parent to the
  rotation that follows, which stores the same; and where vmm_map_page enters a new page table
  before zeroing it, `Vmm.EnsureTable` zeroes it first. Not captured is that a global variable is
  the only copy of a structure.
- Concurrency: spin locks, interrupts and what they protect. Every operation runs alone.
- Integer widths, except where an arithmetic limit is part of a result (the kmalloc size, file
  positions, FAT entries, frame addresses, the long division, the checksum): counters, times and
  virtual run times are unbounded, and so are addresses inside the heap.
- Statistics counters other than those named in the records, printing, and NULL tests on
  buffers, queues and file descriptors that have no address in the model.
- RbTree: rb_replace_node.
- Cfs: cfs_check_preempt_curr and the printing of statistics.
- Cfs.DequeueTask: only for queued tasks. The code does not test this, and erases through
  whatever links it finds, so no state of the tree can be promised.
- Cfs.UpdateCurr: only for a task that is not queued and has a weight, as the current task is
  after it was picked and dequeued. Advancing the key of a queued node would break the order of
  the tree, and a weight of 0 would divide by it.
- Cfs.TaskWaking: for a queued task only if its virtual run time has reached min_vruntime, so
  that nothing changes. Raising the key of a queued node would break the order of the tree.
- FatVolume: the device never fails, sectors have 512 bytes, the tables have room for all
  clusters and there are at most 0x0FFFFFF7 of them. Mounting and the boot sector are not
  modelled.
- FatFiles: directory entries on disk (the code does not write the new size there), directory
  growth and long names.
- FatFiles.FileWrite: only at positions up to the end of the file. Beyond it the code links one
  cluster whatever the distance, and what lies between is never written.
- FatFiles.WriteThenRead: as FileWrite, for positions up to the end of the file.
- Pmm: pmm_mark_frame_used and pmm_mark_frame_free.
- Pmm.Init: only for up to 0xFFFFF000 bytes of memory, beyond which the loop does not end
  (NeverEnds), and kernels that end by 0xFFFDF000, beyond which the end of the bitmap may wrap.
- Vmm: user addresses only, that is page directory entries below 768. The shared kernel half
  and the recursive entry are copied and otherwise left alone. Temporary mappings stand for
  access to a frame; TLB flushes and region functions are not modelled.
- Vmm.MapPageInDirectory: user addresses only. The page tables of kernel addresses are shared by
  all directories, so that a store shows in all of them.
- Vmm.VirtToPhysInDirectory: user addresses only, for the same reason.
- Vmm.MapThenTranslate: user addresses only, for the same reason.
- Vmm.MapPage: user addresses only, for the same reason.
- Vmm.UnmapPage: user addresses only, for the same reason.
- Kmalloc: kzalloc, kmalloc_aligned, the bytes that krealloc copies, the mapping of heap pages,
  and a heap that reaches the top of the address space.
- Kmalloc.Alloc: not for requests of 0xFFFFFFE9 to 0xFFFFFFF8 bytes, whose block size wraps to
  4 or 12. Cutting there writes a header over another one, which a map of whole headers cannot
  represent; NeedExact and SplitTiled delimit the case.
- Kmalloc.Realloc: not for sizes above 0xFFFFFFE8, where kmalloc returns too small a block and
  the copy runs over its end; NeedExact delimits the case.
- Kmalloc.Kfree: only for pointers behind something that was a header once. The code reads a
  header at any other address, too.
- PageCache: dirty pages and writeback, page locks and reference counts as operations, and any
  bound on the number of pages: page_cache_add goes on when nothing could be reclaimed.
- PrioritySched.NoStarvation: for a process that stays queued while aging is called at every
  tick, the clock standing still during a pass.
- Mlfq.Tick: a process whose slice is used up has a level in range; otherwise the code counts
  the change outside its table.
- Mlfq: mlfq_yield and the composition with the context switch.
- PageReclaim: the physical allocator behind the freed frames; page_reclaim_init and the table
  of descriptors.
- MQueue: names and their lookup, the reference counts of open and close, mq_setattr, and
  blocking, which the code does not have yet. Where the code's comment announces blocking, the
  model follows the code and returns EAGAIN.
- Checksum.Accepts: only for buffers that hold the checksum field and as many bytes as the
  length field names; the code reads what lies behind a shorter one.
- lib/divdi3.c, which defines the same symbols as lib/libgcc_compat.c by shortcuts that are not
  division in general.
- The scheduler that combines the three policies, process creation, ELF loading, fork, memory
  mapping, swap, SysV semaphores, shared memory, sockets, TCP and UDP, drivers and consoles.
