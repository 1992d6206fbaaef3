# QEMU's core state machines

A Dafny model of the parts of QEMU (version 5.0.50) in which many steps have to
fit together, and proofs of what they promise as a whole.

| files | subject |
|---|---|
| `PhysTree`, `PhysCompact`, `DispatchTable`, `Dispatch` | Physical-address dispatch: a 512-way, six-level tree of pages built in place from the ranges of a flat view, split into subpages where ranges end inside a page, compressed, and read through a most-recently-used section. |
| `ExclusiveSections`, `ExclusiveProgress` | The protocol by which one thread runs while all virtual CPUs are out of guest code, as steps of any number of threads over the shared flags, the counter, the lock and the two condition variables. |
| `BlockGraph`, `BlockPerm`, `BlockCheck`, `BlockExact`, `BlockGranted`, `BlockReplace`, `BlockLayer` | The graph of block nodes: permission transactions (check, then set or abort) on any acyclic graph, and the replacement of a node by another one. |
| `Jobs`, `JobTransaction` | Background jobs: status transitions, pauses, and the transaction that completes a group of jobs together. |
| `GdbPacket`, `GdbServer` | The packet layer of the debugger connection. |
| `RamBlocks` | The list of RAM blocks and their offsets in the dirty bitmap. |
| `BounceBuffer`, `BounceProgress` | The one bounce buffer for maps of device memory and the clients that wait for it, as steps of any number of threads. |
| `DmaBlk` | Scatter-gather transfers between guest memory and a block device. |
| `Icount` | The instruction counter as a clock. |
| `Helpers` | Definitions that several of these share. |

State that the source updates in place is a class, or a state machine where
several threads update it. Each method is tied to functions on values, and the
lemmas are about those. Recursions and loops of the source keep their shape; some
long loop bodies are methods of their own.

Results that are stronger or different from what one would expect:

- Compression of the dispatch tree sends some addresses to a leaf that is not
  theirs. The final coverage test repairs all of these (`CompactionKeepsFind`).
- A permission transaction leaves users compatible on every acyclic graph, also
  where a node is reached on several paths (`ChildTrySetPerm`).
- When a job of a transaction fails to prepare, the job that finalizes the group
  still commits unless it was itself the first to fail (`DoFinalize`, with the
  example `SplitCommit`).
- The abort of a transaction returns if and only if every other member was started
  (`CompletedTxnAbort`, with the example `CancelHangs`).
- A permission check is exact where no node below is shared: it succeeds if and only
  if masks exist that suit everybody (`LinkExact`). With a shared node it may refuse
  what could be granted (`SharedNodeRefused`).
- Everything begun in the two protocols ends, under any scheduling (`WorkBounds`).
- A direct memory transfer with an empty entry never ends (`TransferEnds`).
- A direct memory transfer covers its list, in order and without gaps, if and only
  if every round maps a multiple of the alignment or less than it (`Transfer`, with
  the example `RemainderLost`). Any other round requests only the remainder: the
  trimmed amount is the aligned part of the size, not the part beyond it. Maps that
  are trimmed off are never given back.
- The search for a RAM offset does not see free space below the lowest block
  (`SpaceBelowMissed`, with the example `FreedSpaceMissed`). Its 64-bit rounding may
  wrap around to 0, which is harmless.
- In adaptive mode the instruction-count clock goes backwards in a sleep if and only
  if it is ahead of real time (`SleepAdaptive`, with the example `ClockGoesBack`).
  With a fixed shift it advances by the idle time if and only if no earlier start of
  idle time is noted (`Sleep`); on a new machine one is (`FirstSleep`).

Choices of the model:

- Addresses are 64 bits wide, pages have 4096 bytes, a `long` has 64 bits. Offsets
  in memory regions are unbounded integers; the source only adds and subtracts
  them, so they agree modulo 2^64. Counters that the source keeps in 32 or 64 bits
  and that cannot reach these limits in practice (checksums, instruction counts,
  device offsets) are unbounded.
- Atomic operations of the two protocols are sequentially consistent steps, as the
  barriers in the source make them.
- Callbacks of drivers are functions of their arguments: the masks a driver derives
  for a child, its own check, the result of a job's preparation. How much of a
  range can be mapped, what a job's coroutine returns and what other jobs do while
  the main loop waits are arbitrary.
- A block driver with its own permission check has no children. Transactions do not
  descend below a node whose driver is closed, as in the source.
- All jobs of a transaction join it before the first one starts.

## Model

| member | source | states |
|---|---|---|
| `PhysTree.LevelsOfWidths` | qemu/exec.c:128-133 | The number of tree levels is the one the address width, page size and fan-out give. |
| `PhysTree.WalkFrame` | qemu/exec.c:334-347 | A walk only looks at nodes inside the range of the entry it starts from, so it is not affected by changes elsewhere. |
| `PhysTree.FillChild` | qemu/exec.c:226-250 | If the pages of a node up to some page are filled and the rest of the range in one more child is, the pages up to the end of that child are filled and all others walk as before. |
| `PhysTree.RoundOutside` | qemu/exec.c:226-314 | One round of a loop over the entries of a node leaves all nodes outside the range of that node as they were. |
| `PhysCompact.WalkLeaf` | qemu/exec.c:334-347 | A walk in a compressed tree always ends on a leaf of the tree, whatever page is asked for. |
| `PhysCompact.CollapseEntry` | qemu/exec.c:303-313 | Replacing an entry by the only valid child of its node keeps the walks of all pages that had a section; a page that had none may now end on the leaf of another page. |
| `PhysCompact.TightKept` | qemu/exec.c:287-313 | If no node below the entries of a node has a single valid entry, none has below the entry that keeps the node or takes over its only child. |
| `PhysCompact.TightFrame` | qemu/exec.c:265-314 | That no node is left to compress below an entry only depends on the nodes inside its range. |
| `DispatchTable.CoversIsContains` | qemu/exec.c:323-332 | The 128-bit coverage test agrees with membership in the section, a section of the full 2^64 bytes included. |
| `DispatchTable.FindLeaf` | qemu/exec.c:334-355 | In a well-formed table, compressed or not, a lookup gives the unique section that contains the address, or the unassigned section if there is none. |
| `DispatchTable.CompactionKeepsFind` | qemu/exec.c:265-321 | Compression changes no lookup result, for any address, misdirected ones included. |
| `DispatchTable.MultipageDone` | qemu/exec.c:1546-1557 | Registering whole pages assigns exactly the addresses of the section and leaves all others as they were. |
| `DispatchTable.SplitDone` | qemu/exec.c:1515-1543 | Turning a free page into a subpage changes the assignment of no address. |
| `DispatchTable.BytesDone` | qemu/exec.c:1515-1543 | Registering part of a page in its subpage assigns exactly the addresses of the section. |
| `DispatchTable.ResolvedContains` | qemu/exec.c:358-375 | In a table at any stage, for every address, the section found through the tree and the subpage table contains the address. |
| `DispatchTable.NextMatches` | qemu/memory.c:717-723 | A table that matches a list of ranges matches the longer list after the next range is registered. |
| `Dispatch.AddressSpaceDispatch.constructor` | qemu/exec.c:2948-2959 | A new dispatch holds the unassigned section only and assigns no address. |
| `Dispatch.AddressSpaceDispatch.NodeReserve` | qemu/exec.c:196-204 | Afterwards the asked number of nodes fits. The allocation stays if they did already, and otherwise grows to the larger of the need and what earlier tables came to need, which is remembered. |
| `Dispatch.AddressSpaceDispatch.NodeAlloc` | qemu/exec.c:206-224 | The new node is the next one, its entries are all unassigned leaves or all empty, and the two assertions hold. |
| `Dispatch.AddressSpaceDispatch.SetLevel` | qemu/exec.c:226-250 | The pages of the range walk to the leaf, all other pages walk as before, the tree stays well formed and the number of allocated nodes is bounded per level. |
| `Dispatch.AddressSpaceDispatch.PageSet` | qemu/exec.c:252-260 | For every range, at most 2 * 6 - 1 nodes are allocated, so the reservation of 18 suffices and no assertion fails in the recursion. |
| `Dispatch.AddressSpaceDispatch.Compact` | qemu/exec.c:265-314 | The tree stays well formed, walks are kept or misdirected as in CollapseEntry, and no node with a single valid entry is left below the entry. |
| `Dispatch.AddressSpaceDispatch.DispatchCompact` | qemu/exec.c:316-321 | After compression of the whole tree nothing is left to compress and every address is assigned as before. |
| `Dispatch.AddressSpaceDispatch.SectionAdd` | qemu/exec.c:1473-1490 | The section is appended and numbered, unless the table is full, which the source asserts. |
| `Dispatch.AddressSpaceDispatch.RegisterMultipage` | qemu/exec.c:1546-1557 | Free whole pages: exactly the addresses of the section become assigned to its region and offset. |
| `Dispatch.AddressSpaceDispatch.SubpageRegister` | qemu/exec.c:2878-2896 | The bytes from start to end of the subpage name the section, the other bytes are unchanged. |
| `Dispatch.AddressSpaceDispatch.RegisterSubpage` | qemu/exec.c:1515-1543 | Part of a page, split off or joined to an existing subpage: exactly the addresses of the section become assigned. |
| `Dispatch.AddressSpaceDispatch.PageFind` | qemu/exec.c:334-355 | The loop returns what the recursive definition of the lookup gives. |
| `Dispatch.AddressSpaceDispatch.AddToDispatch` | qemu/exec.c:1566-1602 | A section cut into a first subpage, whole pages and a last subpage is registered as one: exactly its addresses become assigned; at most five sections are used. |
| `Dispatch.AddressSpaceDispatch.LookupRegion` | qemu/exec.c:358-375 | With or without the most recently used section, after any sequence of lookups, the result is that of the tree walk and the subpage table. |
| `Dispatch.AddressSpaceDispatch.Translate` | qemu/exec.c:378-411 | The section contains the address; its region and the offset in it are those the address is assigned, or the unassigned section and the address itself. The length is cut at the end of a RAM section and kept otherwise. |
| `Dispatch.AddFlatView` | qemu/memory.c:717-723 | Adding the ranges of any flat view one by one keeps the table in agreement with the ranges added so far. |
| `Dispatch.BuildDispatch` | qemu/memory.c:717-724 | For every flat view of pairwise disjoint ranges the finished, fully compressed dispatch assigns every address what the flat view does; it fails only if the section table is full. |
| `Dispatch.ServeAccesses` | qemu/exec.c:358-411 | A dispatch built for a flat view answers every access of any sequence of accesses: with the region of the range that contains the address and the distance from the start of that range, added to where it begins in the region; or as unassigned, at the address itself. |
| `ExclusiveSections.ExecStartOwner` | qemu/cpus-common.c:211-248 | A step of cpu_exec_start keeps the relation between the counter, the marked CPUs and the owner of the exclusive section. |
| `ExclusiveSections.ExecEndOwner` | qemu/cpus-common.c:251-283 | A step of cpu_exec_end keeps that relation; the mark and the count go down together. |
| `ExclusiveSections.ScanOwner` | qemu/cpus-common.c:176-186 | Every round of the scan counts exactly the CPUs it marks. |
| `ExclusiveSections.ExclusiveStartOwner` | qemu/cpus-common.c:164-197 | A step of start_exclusive, the scan over all CPUs included, keeps that relation. |
| `ExclusiveSections.ExclusiveOwner` | qemu/cpus-common.c:200-208 | A step inside or at the end of the exclusive section keeps that relation. |
| `ExclusiveSections.StepInv` | qemu/cpus-common.c:155-283 | Every step of every thread keeps the invariant, for any number of CPUs. |
| `ExclusiveSections.RunInv` | qemu/cpus-common.c:155-283 | The invariant holds in every state of every interleaving. |
| `ExclusiveSections.MutualExclusion` | qemu/cpus-common.c:155-283 | While one thread is in its exclusive section no other thread is in one and no CPU is between cpu_exec_start and cpu_exec_end. |
| `ExclusiveSections.CounterExact` | qemu/cpus-common.c:164-283 | Whenever the lock is free the counter is 0 and nobody is marked, or it is exactly 1 plus the number of marked CPUs, each at a point from which it will decrement it. |
| `ExclusiveSections.CountedReachesDecrement` | qemu/cpus-common.c:211-283 | Every step of a marked CPU brings it closer to its decrement, and no step of another thread moves it away. |
| `ExclusiveSections.NoLostWakeup` | qemu/cpus-common.c:155-283 | A thread asleep in start_exclusive has a marked CPU to wait for or a signal on its way; a thread asleep until the section ends has an owner or a broadcast on its way. |
| `ExclusiveSections.HasStep` | qemu/cpus-common.c:155-283 | A thread at any point of the four procedures that is neither asleep nor in need of a lock that is held has a step to take. |
| `ExclusiveSections.DeadlockFree` | qemu/cpus-common.c:155-283 | In every reachable state in which some thread is inside a procedure, some thread is neither asleep nor in need of a lock that is held, and has a step to take. |
| `ExclusiveProgress.StepLowers` | qemu/cpus-common.c:155-283 | Every step of every thread inside a call lowers a measure of the work left, for any number of CPUs, unless it is a sleeper that wakes up for no reason: nobody goes round in circles, with or without the lock. |
| `ExclusiveProgress.WorkBounds` | qemu/cpus-common.c:155-283 | However threads are scheduled, a run without new calls is over after as many steps as there is work left. |
| `ExclusiveProgress.Completes` | qemu/cpus-common.c:155-283 | Every run can be continued to one that leaves nobody inside a call. |
| `ExclusiveProgress.ThroughSection` | qemu/cpus-common.c:164-208 | A thread gets out of start_exclusive only into its section, with the mark of that set. |
| `ExclusiveProgress.ThroughGuest` | qemu/cpus-common.c:211-283 | A CPU gets out of cpu_exec_start only into guest code, marked as running. |
| `ExclusiveProgress.CanEnter` | qemu/cpus-common.c:164-197 | In every state of every run, every thread that is outside can get into a section. |
| `ExclusiveProgress.CanExecute` | qemu/cpus-common.c:211-248 | ... and into guest code. |
| `ExclusiveProgress.AllExecute` | qemu/cpus-common.c:211-248 | For any number of CPUs there is a run in which all of them are in guest code at once. |
| `ExclusiveProgress.FastPath` | qemu/cpus-common.c:211-248 | While the counter is 0 a CPU gets into guest code in two steps, without the lock. |
| `ExclusiveProgress.FastExit` | qemu/cpus-common.c:251-283 | ... and out of it. |
| `ExclusiveProgress.WokenInTime` | qemu/cpus-common.c:188-283 | A sleeper is woken only when all counted CPUs are out of guest code, or when the section it waits for is over. |
| `BlockGraph.RetargetAcyclic` | qemu/block.c:4426-4563 | Moving any set of links of an acyclic graph to one target keeps it acyclic if and only if no moved link starts at a node the target reaches in the old graph. |
| `BlockGraph.ReachSetShrinks` | qemu/block.c:3552-3568 | In an acyclic graph the set of reachable nodes shrinks along every link, which is why the recursions end. |
| `BlockReplace.ShouldUpdateChild` | qemu/block.c:4426-4503 | The breadth-first search answers true exactly for links that may move and are found nowhere in the subtree of the target; it ends on every graph, cyclic or not. |
| `BlockReplace.ExpandNode` | qemu/block.c:4481-4496 | One round keeps what is known of the found nodes, also when it stops early at the sought link. |
| `BlockReplace.RecurseHasChild` | qemu/block.c:3552-3568 | The recursion answers true exactly when the child is reachable, and ends on every acyclic graph. |
| `BlockReplace.BackingChange` | qemu/block.c:3978-4005 | Moving the backing link of a node to another node keeps the graph acyclic if and only if that one does not reach the node: the test of the reopen code is exact. |
| `BlockReplace.BackingAdded` | qemu/block.c:3978-4005 | The same for a node that had no backing link before. |
| `BlockReplace.ReplaceCompatible` | qemu/block.c:4505-4563 | After the links have moved, users of every node still tolerate each other: moved links among themselves, with the users the target had, and all others. |
| `BlockReplace.TargetDerived` | qemu/block.c:4537-4557 | The masks the check derived for the target, ignoring the links to be moved, are those its drivers derive from all users once they have moved. |
| `BlockReplace.BelowSettled` | qemu/block.c:4505-4563 | Nodes below the target agree with the users they have left after the move. |
| `BlockPerm.DrivenDag` | qemu/block.c:2075-2122 | The links that transactions descend, those of closed nodes aside, form an acyclic graph. |
| `BlockPerm.AssignCompatible` | qemu/block.c:2251-2281 | Giving a link the masks its node was checked against keeps all users of all nodes compatible. |
| `BlockPerm.AssignSettles` | qemu/block.c:2251-2281 | ... and leaves every node it leads to in agreement with its users, however often nodes are visited. |
| `BlockPerm.AbortUndoes` | qemu/block.c:2297-2337 | A check, failed anywhere in the recursion or not, followed by the abort leaves every link exactly as it was, links visited twice included, on any acyclic graph. |
| `BlockPerm.RewriteStep` | qemu/block.c:2075-2091 | Links reached on several paths are finished once: undoing or committing again changes nothing. |
| `BlockLayer.BlockNodes.GetCumulativePerm` | qemu/block.c:2124-2138 | The union of what the users of a node take and the intersection of what they share. |
| `BlockLayer.BlockNodes.AddUser` | qemu/block.c:2204-2243 | The new masks are accepted exactly when every user that is not ignored tolerates them and is tolerated; then the sums over all users are returned. |
| `BlockCheck.NodeChecked` | qemu/block.c:1984-2066 | Only links below the node change, what they held before stays recoverable, users stay compatible, even if the check fails halfway; on success the node accepts the masks, its children hold what the driver derives, and every node below accepts what its users hold and agrees with them. |
| `BlockCheck.ChildrenChecked` | qemu/block.c:2044-2063 | The same for the loop over the children, in any state it passes. |
| `BlockCheck.UserChecked` | qemu/block.c:2188-2247 | The same for a node with a new or changed user; success implies that the user fits the others. |
| `BlockCheck.LinkChecked` | qemu/block.c:2251-2281 | The same for one link; on success it holds the new masks. All on any acyclic graph, however often a node is visited. |
| `BlockExact.LeafExact` | qemu/block.c:1984-2066 | A node without children grants masks if and only if they fit its other users and the node accepts the sums. |
| `BlockExact.NodeComplete` | qemu/block.c:1984-2066 | On a subtree without shared nodes: if masks exist for all links below that are compatible, derived and accepted everywhere, the check of the node succeeds, whatever the links below hold before. |
| `BlockExact.LinkExact` | qemu/block.c:2251-2281 | On any acyclic graph, what the check of a link grants can be granted: masks exist that differ only at and below the link, give it what is asked, and suit all users and nodes. On a subtree without shared nodes the check succeeds if and only if they exist. |
| `BlockExact.SharedNodeRefused` | qemu/block.c:2044-2063 | With two links to the same node below, the check may refuse what could be granted: an example with two nodes. |
| `BlockExact.MoveComplete` | qemu/block.c:4521-4543 | The check before a replacement succeeds, on a subtree without shared nodes, if masks exist with which the links can point at the new node. |
| `BlockGranted.LinkAgain` | qemu/block.c:2251-2281 | Where a transaction has settled, a check never refuses the masks a link has: it succeeds and changes nothing that is granted. |
| `BlockGranted.NodeAgain` | qemu/block.c:1984-2066 | The same for a node and all below it. |
| `BlockGranted.LooseningUnreported` | qemu/block.c:2308-2337 | With drivers that derive less from less, masks that only loosen those of a link tighten no restriction anywhere in the recursion, so that a failure is hidden from a caller who does not expect one. |
| `BlockGranted.RestrictionReported` | qemu/block.c:1996-2007 | Masks that take what no user of the node takes, leave out what all share, or do not get along with another user count as tightening, so that a failure is reported. |
| `BlockGranted.WritersWritable` | qemu/block.c:2008-2027 | Where a transaction has settled, no link takes the permission to write, or to rewrite, from a node that cannot be written to. |
| `BlockGranted.NodeLoosened` | qemu/block.c:1996-2007 | The same for a node and all below it. |
| `BlockLayer.BlockNodes.CheckPerm` | qemu/block.c:1984-2066 | The in-place recursion gives the verdict, the masks and the answer whether restrictions are tightened of the check as a function. |
| `BlockLayer.BlockNodes.CheckChildPerms` | qemu/block.c:2044-2063 | The same for the loop over the children. |
| `BlockLayer.BlockNodes.CheckUpdatePerm` | qemu/block.c:2188-2247 | The same for a new or changed user of a node. |
| `BlockLayer.BlockNodes.ChildCheckPerm` | qemu/block.c:2251-2281 | The same for one link. |
| `BlockLayer.BlockNodes.AbortPermUpdate` | qemu/block.c:2075-2091 | Every link below the node holds again what it held before the transaction, all others are untouched. |
| `BlockLayer.BlockNodes.ChildAbortPermUpdate` | qemu/block.c:2297-2306 | The same including the link itself. |
| `BlockLayer.BlockNodes.SetPerm` | qemu/block.c:2093-2122 | On checked masks, setting them again changes none and drops all backups below the node. |
| `BlockLayer.BlockNodes.ChildSetPerm` | qemu/block.c:2283-2295 | The same including the link itself. |
| `BlockLayer.BlockNodes.ChildTrySetPerm` | qemu/block.c:2308-2337 | If the check succeeds the new masks are in force and every node they lead to accepts what its users hold and agrees with them, otherwise every link is as it was; all users of all nodes stay compatible and no backup is left, on any acyclic graph. On a subtree without shared nodes it succeeds if and only if such masks exist. A failure is reported if and only if it would have tightened a restriction. |
| `BlockLayer.BlockNodes.CollectParents` | qemu/block.c:4521-4535 | The links to move are exactly those to the old node that may move and lie outside the subtree of the new one; fails exactly if one of them is frozen. |
| `BlockLayer.BlockNodes.ReplaceChildNoperm` | qemu/block.c:2521-2586 | One link that is not frozen changes its target and moves from one list of parents to the other; nothing else changes. |
| `BlockLayer.BlockNodes.MoveLinks` | qemu/block.c:4548-4554 | All links of the list have the new target and all other links their old one. |
| `BlockLayer.BlockNodes.CheckMove` | qemu/block.c:4521-4543 | All checks before the first link moves; a failure leaves no trace. |
| `BlockLayer.BlockNodes.Reattach` | qemu/block.c:4545-4557 | The checked links move; the masks are set; graph, lists and masks are consistent again. |
| `BlockLayer.BlockNodes.ReplaceNode` | qemu/block.c:4505-4563 | If it succeeds, exactly the links to the old node that may move and lie outside the subtree of the new one point at it, otherwise nothing changed; the graph stays acyclic, users stay compatible, the node and those below accept what their users hold and agree with them. On a subtree without shared nodes it succeeds if and only if no such link is frozen and masks exist with which they can point there. |
| `Jobs.UpdateRc` | qemu/job.c:645-656 | A cancelled job that has not failed gets the error for cancellation, a failed job keeps its error and turns to aborting, any other job is unchanged; the transition is allowed. |
| `Jobs.StatusTable` | qemu/job.c:37-51 | Status transitions are allowed where the table of the source has a one. |
| `Jobs.VerbTable` | qemu/job.c:53-62 | So are verbs, in each status. |
| `Jobs.CancelAsync` | qemu/job.c:713-727 | The pause of the user ends with the cancellation, the pause count stays exact and force is never taken back. |
| `Jobs.Decided` | qemu/job.c:658-672 | Exactly one of commit and abort happens: commit if and only if the job neither failed nor was cancelled. |
| `Jobs.Concluding` | qemu/job.c:637-643 | A decided job is concluded, and dismissed at once if it is to be or was never started. |
| `Jobs.Finalized` | qemu/job.c:681-711 | Finalizing one job decides it and leaves it concluded or dismissed. |
| `Jobs.CancelledAll` | qemu/job.c:750-760 | After the others are cancelled none of them can commit any more; only the job that aborts keeps its own verdict. |
| `Jobs.EndedKeeps` | qemu/job.c:761-771 | Handlers of other jobs that run while the abort waits for one, which may pause, resume, ready or end them, do not change what becomes of any job. |
| `JobTransaction.FirstFailureAt` | qemu/job.c:795-797 | Preparation stops at the first failure in list order. |
| `JobTransaction.OutcomeAgreed` | qemu/job.c:792-804 | A finalization ends with all jobs committed, or all aborted, or exactly the finalizing job committed because another one failed to prepare. |
| `JobTransaction.OutcomeIs` | qemu/job.c:792-804 | A job commits if every preparation returns 0; otherwise if and only if it is the one that finalizes and not the first of the list to fail. |
| `JobTransaction.JobTxn.constructor` | qemu/job.c:305-365 | New jobs are created, hold one pause each, have the given preparation results, and all belong to the transaction, the last one first. |
| `JobTransaction.JobTxn.FinalizeSingle` | qemu/job.c:681-711 | The first job of the list is finalized and leaves the list. |
| `JobTransaction.JobTxn.CancelOthers` | qemu/job.c:750-760 | All other jobs are cancelled, none of them will commit. |
| `JobTransaction.JobTxn.FinishSync` | qemu/job.c:997-1019 | The wait ends for every started job, with the job aborted, after any number of steps of any jobs; it does not end for a job that was never started. |
| `JobTransaction.JobTxn.Meanwhile` | qemu/job.c:997-1019 | A step of any job while the abort waits, a pause or a resume by a drain included, keeps a cancelled job cancelled and started. |
| `JobTransaction.JobTxn.RunOn` | qemu/job.c:484-513 | So does a step of a job that goes on: it may become ready, pause or wake. |
| `JobTransaction.JobTxn.CompletedTxnAbort` | qemu/job.c:729-776 | Every job is finalized and the list is emptied; every job aborts except, possibly, the one that aborts the transaction, which commits exactly if it neither failed nor was cancelled. It hangs if and only if another job was never started. |
| `JobTransaction.JobTxn.JobCompleted` | qemu/job.c:856-867 | If the job failed or was cancelled, all jobs of the transaction abort and none commits; otherwise the job waits, or as the last one makes all pending, or has all finalized. |
| `JobTransaction.JobTxn.JobExit` | qemu/job.c:870-896 | The same for the exit handler of a job, in every reachable state. |
| `JobTransaction.JobTxn.CompletedTxnSuccess` | qemu/job.c:830-854 | While another job has not completed, the job only waits; otherwise all jobs become pending, and are finalized at once if and only if none of them waits for the user. |
| `JobTransaction.JobTxn.ToPending` | qemu/job.c:815-822 | All jobs become pending together; the result says whether one of them waits for the user. |
| `JobTransaction.JobTxn.DoFinalize` | qemu/job.c:792-804 | All jobs commit if and only if no preparation fails; otherwise all abort except the finalizing job, which commits if and only if it is not itself the first to fail. |
| `JobTransaction.SplitCommit` | qemu/job.c:792-804 | A run from the creation of two jobs on: one fails to prepare and aborts, the other one, whose end finalizes them, commits. |
| `JobTransaction.JobTxn.Start` | qemu/job.c:914-924 | A created job is started and gives back its initial pause. |
| `JobTransaction.JobTxn.PausePoint` | qemu/job.c:484-513 | The job stops exactly if it is to pause and is not cancelled; the status tells a ready job from a running one. |
| `JobTransaction.JobTxn.Enter` | qemu/job.c:431-456 | A stopped job goes back to the status it stopped in. |
| `JobTransaction.JobTxn.TransitionToReady` | qemu/job.c:824-828 | A running job becomes ready. |
| `JobTransaction.JobTxn.CoroutineEnds` | qemu/job.c:902-912 | The result is recorded and the exit handler is due. |
| `JobTransaction.JobTxn.DrainedBegin` | qemu/blockjob.c:99-103 | One more pause is held. |
| `JobTransaction.JobTxn.DrainedEnd` | qemu/blockjob.c:127-131 | One pause is given back; the assertion that there is one holds. |
| `JobTransaction.JobTxn.UserPause` | qemu/job.c:570-581 | Accepted exactly for a created, running, paused, ready or standby job that the user has not paused already. |
| `JobTransaction.JobTxn.UserResume` | qemu/job.c:588-603 | Accepted exactly for a created, running, paused, ready or standby job that the user has paused; the pause count is never the reason to refuse, and the I/O status is cleared. |
| `JobTransaction.ActionFor` | qemu/blockjob.c:484-502 | The job stops for the policy stop, and for enospc and auto if the device is full; ignore ignores, all else is reported. |
| `JobTransaction.JobTxn.ErrorAction` | qemu/blockjob.c:479-517 | The answer is that of the policy. A job that is to stop is paused as the user would pause it, once, and any other is unchanged. |
| `JobTransaction.StoppedByError` | qemu/blockjob.c:508-515 | The pause count stays exact and an error status implies a pause of the user. |
| `JobTransaction.JobTxn.IostatusReset` | qemu/blockjob.c:464-471 | The assertion that the user has paused the job holds whenever there is a status to reset. |
| `JobTransaction.JobTxn.UserCancel` | qemu/job.c:926-948 | Accepted exactly before a job aborts or is concluded; a job that was not started or has ended takes the whole transaction with it at once: all abort, none commits. |
| `JobTransaction.CancelHangs` | qemu/job.c:729-776 | A run from the creation of two jobs on: neither is started, and cancelling one of them never returns. |
| `JobTransaction.JobTxn.UserFinalize` | qemu/job.c:806-813 | Accepted exactly for a pending job, with the outcome of DoFinalize. |
| `JobTransaction.JobTxn.UserDismiss` | qemu/job.c:605-629 | A concluded job is dismissed, its outcome stays. |
| `GdbPacket.RunBounded` | qemu/gdbstub.c:2810-2955 | No stream of bytes, with any mix of escapes and run lengths, makes the line longer than 4095 bytes. |
| `GdbPacket.ReadItem` | qemu/gdbstub.c:2852-2917 | A plain byte, an escaped byte and a run length within the limits are read as what they stand for. |
| `GdbPacket.RunLengthRead` | qemu/gdbstub.c:2888-2917 | A run length byte adds 3 to 97 more of the last byte, or drops the packet if less than one byte would be left; by its value, for every count that can be sent. |
| `GdbPacket.BadDigit` | qemu/gdbstub.c:2918-2935 | A byte that is no digit where a checksum is expected goes back to the line. |
| `GdbPacket.ReadItems` | qemu/gdbstub.c:2852-2917 | So is any sequence of them. |
| `GdbPacket.ReadFooter` | qemu/gdbstub.c:2918-2950 | The right checksum is acknowledged and the line accepted; any other checksum is refused and the line dropped. |
| `GdbPacket.FrameAccepted` | qemu/gdbstub.c:2841-2950 | Any sequence of items that fits, framed, is accepted with the meaning it has, also by a server that still waits for a reply to be acknowledged: the start of a command ends that wait. |
| `GdbPacket.RoundTrip` | qemu/gdbstub.c:625-695 | Escaping any payload of up to 4095 bytes, framing it and feeding it to an idle receiver, which may still wait for an acknowledgement, reproduces the payload and sends an acknowledgement. |
| `GdbPacket.TooLongIgnored` | qemu/gdbstub.c:2864-2882 | A longer payload is dropped without any answer: 4095 is exact. |
| `GdbPacket.Retransmit` | qemu/gdbstub.c:2815-2833 | An unacknowledged reply is sent again for every refusal, and the acknowledgement ends that. |
| `GdbPacket.WaitingIgnores` | qemu/gdbstub.c:2815-2833 | Nothing but an acknowledgement, a refusal or the start of a command changes a server that waits. |
| `GdbPacket.KnownReply` | qemu/gdbstub.c:625-663 | The reply OK is framed as the protocol writes it, with its checksum. |
| `GdbPacket.KnownRunLength` | qemu/gdbstub.c:2888-2917 | So is a run of four zeros. |
| `GdbPacket.KnownEscapes` | qemu/gdbstub.c:679-695 | The four special bytes are escaped as the protocol writes them, and no others. |
| `GdbPacket.StopReported` | qemu/gdbstub.c:2815-2839 | Any byte stops a machine that runs; the report of that is sent, sent again for every refusal, and ended by the acknowledgement. |
| `GdbPacket.HexRoundTrip` | qemu/gdbstub.c:569-589 | Memory written as hexadecimal text and read back is unchanged. |
| `GdbPacket.ToHex` | qemu/gdbstub.c:560-566 | The digit is a hexadecimal digit and reads back as the value. |
| `GdbPacket.FromHex` | qemu/gdbstub.c:548-558 | The value of a hexadecimal digit, in either case, is its place among the digits; of any other byte, 0. |
| `GdbServer.SignedSumAgrees` | qemu/gdbstub.c:640-646 | Checksums over signed and unsigned characters agree modulo 256. |
| `GdbServer.GdbState.constructor` | qemu/gdbstub.c:3406-3431 | A new connection is idle, with an empty line and nothing sent. |
| `GdbServer.GdbState.ReadByte` | qemu/gdbstub.c:2810-2955 | The in-place update of the line buffer does what the function on values says; no access leaves the buffer. |
| `GdbServer.GdbState.ReadLine` | qemu/gdbstub.c:2852-2872 | The same for a byte of the line. |
| `GdbServer.GdbState.ReadEscaped` | qemu/gdbstub.c:2873-2887 | The same for an escaped byte. |
| `GdbServer.GdbState.ReadRepeat` | qemu/gdbstub.c:2888-2917 | The same for a run length; the repeated bytes stay inside the buffer. |
| `GdbServer.GdbState.ReadChecksum1` | qemu/gdbstub.c:2918-2928 | The same for the first checksum digit, with the terminator inside the buffer. |
| `GdbServer.GdbState.ReadChecksum2` | qemu/gdbstub.c:2929-2950 | The same for the second checksum digit. |
| `GdbServer.GdbState.PutPacketBinary` | qemu/gdbstub.c:625-663 | The packet sent and kept is the frame of its body, with the checksum the receiver will compute. |
| `GdbServer.MemToX` | qemu/gdbstub.c:679-695 | The loop produces the escaped form of the data. |
| `RamBlocks.RoundUpIs` | qemu/exec.c:1940-1941 | Rounding in 64 bits gives the next multiple, or 0 past the last one. |
| `RamBlocks.Candidate` | qemu/exec.c:1940-1941 | The gap after a block starts at the first multiple of 0x40000 at or after its end, or at 0 if there is none. |
| `RamBlocks.GapFree` | qemu/exec.c:1940-1950 | No block reaches into the gap after a block, also when the rounding wraps around to 0. |
| `RamBlocks.GapIs` | qemu/exec.c:1926-1961 | The initial value of the search is larger than every gap, so no fitting gap is passed over because of it. |
| `RamBlocks.NextBlock` | qemu/exec.c:1943-1950 | The inner loop finds the start of the next block, or the end of the space. |
| `RamBlocks.FindRamOffset` | qemu/exec.c:1923-1973 | The offset starts the smallest sufficient gap that follows a block and overlaps nothing; it fails if and only if no gap after a block is large enough. |
| `RamBlocks.SpaceBelowMissed` | qemu/exec.c:1923-1973 | Free space below the lowest block is not found, with a list that shows it. |
| `RamBlocks.FreedSpaceMissed` | qemu/exec.c:1923-1973 | The same reached from the empty list: two blocks are added, the first is freed, and a block of its size is refused. |
| `RamBlocks.RamList.constructor` | qemu/exec.c:90 | The list is empty. |
| `RamBlocks.RamList.RamBlockAdd` | qemu/exec.c:2252-2313 | The first block gets offset 0 and every other the start of the smallest sufficient gap after a block; it fails exactly if there is none. Blocks stay pairwise disjoint, aligned and sorted by decreasing length; the new one is inserted and nothing else changes. |
| `RamBlocks.RamList.RamFree` | qemu/exec.c:2513-2531 | The block is removed, all else stays, and the cached block is forgotten. |
| `RamBlocks.RamList.GetRamBlock` | qemu/exec.c:1267-1303 | With or without the cached block, the one block that contains the address, and none if and only if there is none. |
| `RamBlocks.HitsIs` | qemu/exec.c:1271-1278 | The 64-bit subtraction and comparison is membership in the block. |
| `BounceBuffer.StepInv` | qemu/exec.c:3449-3508 | Every step of every thread keeps the invariant on the buffer, the list lock, the waiting clients and their count. |
| `BounceBuffer.RunInv` | qemu/exec.c:3449-3662 | The invariant holds in every state of every interleaving of any number of threads. |
| `BounceBuffer.OneOwner` | qemu/exec.c:3579-3662 | Two maps never own the bounce buffer at once, and an unmap writes back to the address its own map asked for, from within the buffer. |
| `BounceBuffer.WritesBelong` | qemu/exec.c:3635-3662 | In every run, everything ever written back went to the address its own map was granted, within the length granted, and no map is written back twice. |
| `BounceBuffer.MapSettled` | qemu/exec.c:3590-3662 | In every run, a write map that gives up the buffer has been written back exactly once, to its own address with the length accessed; a read map was filled from memory and not written back; nobody was granted more than a page. |
| `BounceBuffer.AllSettled` | qemu/exec.c:3635-3662 | Once the buffer is free, exactly the write maps there ever were have been written back. |
| `BounceBuffer.NoLostNotification` | qemu/exec.c:3449-3508 | With the list lock free, a waiting client implies that the buffer is in use or that the thread that released it is about to notify. |
| `BounceBuffer.QuietMeansServed` | qemu/exec.c:3449-3508 | When all threads are outside, the buffer is free and every registration was scheduled or withdrawn, each exactly once. |
| `BounceProgress.StepLowers` | qemu/exec.c:3449-3662 | Every step of a thread inside an operation lowers a measure of the work left. |
| `BounceProgress.WorkBounds` | qemu/exec.c:3449-3662 | However threads are scheduled, a run without new operations is over after as many steps as there is work left. |
| `BounceProgress.Completes` | qemu/exec.c:3449-3662 | Every run can be continued to one that leaves nobody inside an operation, where every client has been served. |
| `BounceProgress.MapUnmap` | qemu/exec.c:3590-3662 | From any state with the buffer free, a map and its unmap: at most 4096 bytes are granted, a read map reads once, a write map writes back what was accessed, and nothing else changes. |
| `BounceProgress.Notify` | qemu/exec.c:3449-3508 | The end of an unmap schedules every waiting client once. |
| `BounceProgress.Register` | qemu/exec.c:3460-3471 | A registration waits before all others if the buffer is in use, and otherwise has everybody scheduled, itself included. |
| `BounceProgress.Unregister` | qemu/exec.c:3489-3501 | A withdrawal removes the client once, if it waits, and changes nothing else. |
| `DmaBlk.DiscardBack` | qemu/dma-helpers.c:184-187 | Cutting bytes off the end of the vector leaves the first ones, in order. |
| `DmaBlk.Taken` | qemu/dma-helpers.c:184-187 | A round takes all it maps if and only if the size is a multiple of the alignment or smaller than it, and otherwise the remainder. |
| `DmaBlk.Trimmed` | qemu/dma-helpers.c:184-187 | The vector as requested holds the first bytes of the mapped one. It keeps all maps if and only if the round is whole or what is cut off is less than the last map. |
| `DmaBlk.IssueOrder` | qemu/dma-helpers.c:126-194 | Requesting part of the mapped bytes gives an ordered transfer if and only if it was ordered before and the part is all of them: a lost order is not regained. |
| `DmaBlk.RemainderLost` | qemu/dma-helpers.c:126-194 | A request of two ranges, 512 and 100 bytes, at alignment 512, taken through its rounds: it completes, without error, after 100 bytes, and one map is never given back. |
| `DmaBlk.OrderCoversList` | qemu/dma-helpers.c:126-175 | At the end of the list, order means that every byte was requested once, at consecutive offsets. |
| `DmaBlk.DmaRequest.constructor` | qemu/dma-helpers.c:232-256 | A new request is at the start of its list, nothing is requested or completed. |
| `DmaBlk.MapAllBytes` | qemu/dma-helpers.c:143-175 | For any pattern of partial and failed maps the vector holds exactly the bytes the cursor passes. |
| `DmaBlk.MapAllGreedy` | qemu/dma-helpers.c:143-175 | A round stops only at the end of the list, after the last attempt, or at one that gets nothing; each attempt is taken whole, up to the end of its entry. |
| `DmaBlk.TransferEnds` | qemu/dma-helpers.c:126-194 | With enough rounds that get something a transfer completes if and only if its list has no empty entry. |
| `DmaBlk.DmaRequest.MapRanges` | qemu/dma-helpers.c:143-175 | The loop leaves the cursor and the vector where the function of the successive map results says. |
| `DmaBlk.DmaRequest.Issue` | qemu/dma-helpers.c:184-193 | What is requested are the first bytes of the vector, and the device offset continues where the last request ended. |
| `DmaBlk.DmaRequest.BlkCb` | qemu/dma-helpers.c:126-194 | Completion fires once, exactly at the end of the list or on error; each round requests the bytes it mapped, cut to the alignment, at the next offset; afterwards the transfer is in order, complete and contiguous so far if and only if it was before and the size mapped in the round is a multiple of the alignment or smaller than it. Exactly the maps that are cut off are not given back. |
| `DmaBlk.DmaRequest.Reschedule` | qemu/dma-helpers.c:91-99 | The same for a request that waited for a map. |
| `DmaBlk.DmaRequest.Cancel` | qemu/dma-helpers.c:196-217 | A request the device works on is left to its handler; any other is completed, once, and no longer waits. |
| `DmaBlk.Transfer` | qemu/dma-helpers.c:77-256 | For any list, alignment, pattern of maps and results: a transfer that completes without error has requested every byte of the list once, in order, at consecutive offsets if and only if every round mapped a multiple of the alignment or less than it; otherwise it has requested fewer bytes than the list has, and completes all the same. A transfer that completes, with an error or not, has given back exactly the maps that no round cut off. With enough rounds that get something it completes if and only if no entry is empty. |
| `DmaBlk.DmaBufRw` | qemu/dma-helpers.c:296-315 | The first bytes of the list are accessed, as many as CopyLength says, in order, without going past the last entry; the rest is returned. |
| `DmaBlk.CopyLength` | qemu/dma-helpers.c:301-303 | The smaller of length and list size for a length that is not negative, and the list size for a negative one if that fits 31 bits; never more than the list size. |
| `Icount.Round` | qemu/cpus.c:435-439 | The result lasts at least the given time and less than one instruction longer. |
| `Icount.RoundLeast` | qemu/cpus.c:435-439 | No smaller number of instructions lasts that long. |
| `Icount.Limit` | qemu/cpus.c:1346-1375 | The deadline is used if it is between 0 and INT32_MAX, and INT32_MAX otherwise. |
| `Icount.Adjusted` | qemu/cpus.c:396-411 | Slower by one step if and only if the clock is ahead, by more than a tenth of a second against half of the last drift, and the shift is above 0; faster by one step in the mirrored case below 10; otherwise as before. |
| `Icount.IcountState.constructor` | qemu/cpus.c:865-885 | A new clock shows 0 and nothing is executed; the shift is the given one, or 3 in adaptive mode; the start of idle time is unset in adaptive mode only. |
| `Icount.IcountState.PrepareForRun` | qemu/cpus.c:1397-1420 | The whole budget is split over the two counters, and covers the deadline by less than one instruction. |
| `Icount.IcountState.Execute` | qemu/cpus.c:185-189 | Executed instructions come off the low counter, and count plus what has run equals instructions retired. |
| `Icount.IcountState.UpdateIcount` | qemu/cpus.c:196-203 | The global count equals the instructions retired, and the clock advances by exactly those not yet counted. |
| `Icount.IcountState.GetIcount` | qemu/cpus.c:218-240 | The running CPU accounts for what it has executed, if it may do I/O, and reads the exact time; if it may not, there is no reading. Any other reader accounts for nothing. |
| `Icount.IcountState.Refill` | qemu/accel/tcg/cpu-exec.c:640-656 | Refilling the low counter loses and gains no instruction. |
| `Icount.IcountState.ExecBlock` | qemu/accel/tcg/cpu-exec.c:612-660 | A block that fits is executed whole; one that does not leads to a refill, and is executed as far as it goes if the refill is the end of the budget. Executed plus remaining stays the same. |
| `Icount.RunExhausts` | qemu/accel/tcg/cpu-exec.c:612-660 | A run with enough blocks uses up its whole budget, however long they are. |
| `Icount.IcountState.ProcessIcountData` | qemu/cpus.c:1422-1437 | After a run the count is exact and the counters are clear. |
| `Icount.IcountState.CpuExec` | qemu/cpus.c:1397-1437 | Over a whole run, for any sequence of blocks, refills and clock reads, executed plus remaining equals the budget; no reading is before an earlier one; the clock passes the deadline by less than one instruction and reaches it if the budget is used up. |
| `Icount.IcountState.Adjust` | qemu/cpus.c:376-418 | While the machine runs, the shift changes by one step exactly under the conditions of Adjusted, stated on the clock. On the running CPU what it has executed is accounted for at the old shift; elsewhere the clock shows the same time before and after. |
| `Icount.IcountState.Warp` | qemu/cpus.c:441-485 | With a fixed shift the clock advances by the time since the noted start of idle time. In adaptive mode it ends at the smaller of that and real time, and goes backwards if and only if it was ahead of real time or real time went back. |
| `Icount.IcountState.StartWarp` | qemu/cpus.c:520-620 | If the machine runs and all CPUs are idle: without sleep the clock jumps by the time to the next timer, which is notified; with sleep the start of the idle time is noted, unless an earlier start is noted already, and a timer is set to end it, unless it ends earlier already. |
| `Icount.Sleep` | qemu/cpus.c:441-620 | With a fixed shift, from going idle to the account of it: the clock advances by the idle time if and only if no start, or none before it, was noted already; in any case by the time since the earlier of the two. |
| `Icount.SleepAdaptive` | qemu/cpus.c:441-620 | In adaptive mode the clock ends at the smaller of that and real time, and goes back if and only if it was ahead of real time. |
| `Icount.FirstSleep` | qemu/cpus.c:865-885 | With a fixed shift the start of idle time begins as 0 and is taken for one: the first sleep of a new machine advances the clock by all of real time so far, which is the idle time if and only if it began at 0; the next sleep by its own time. |
| `Icount.ClockGoesBack` | qemu/cpus.c:441-485 | A new machine in adaptive mode whose clock goes from 104 back to 20 in a sleep. |

## Left out

- BlockLayer.BlockNodes.CheckPerm: the permissions a reopen queue would give are not modelled, only those of the current options.
- Dispatch.AddressSpaceDispatch.AddToDispatch: requires ranges that are not registered yet, as flat views provide them. The source does not check this. If part of a registered block of pages were registered again it would take a section number for a node, or fail an assertion; that the later of two ranges wins for the bytes of a subpage and for blocks of the same shape is not modelled.
- JobTransaction.JobTxn.FinishSync: that a started job ends is part of the model of its coroutine and not proved.
- BlockLayer.BlockNodes.ReplaceChildNoperm: detaching a link from its node without a new one, and the callbacks that drain the parent, are not modelled.
- GdbPacket.RoundTrip: the handler of a command and its reply are not modelled; after an accepted command the receiver is idle.
- BlockExact.LinkExact: below shared nodes the verdict depends on the order of the links; that it is exact without them is proved, that it fails for some drivers on every subtree with one is shown by an example only.
- DmaBlk.Transfer: rounds do not include a cancellation, which is a method of its own.
- Icount.IcountState.Warp: notification of timers that expire by it is not modelled.
- BounceBuffer.RunInv: maps of ordinary RAM, which do not use the buffer, are not steps of the model.
- IOMMU translation, the access functions on top of a translated address, and dirty tracking.
- Reclamation by RCU, reference counts, AioContext locks, drain counters of nodes, coroutines, QMP events and tracing.
- The queue of work items for CPUs, CPU hotplug, and pthread details of the exclusive sections.
- Attaching and detaching of block nodes, node options and names, snapshots, and the rollback of several reopens at once, which does not restore everything the loop checked.
- Job verbs that only pass a value on (set-speed, complete), progress, and jobs added to a transaction later.
- Debugger commands, their parsing, and the multiprocess extensions.
- Allocation of host memory for RAM blocks, resizing, and migration.
- Record and replay, and timers other than the deadline of a run.
- memory_mapping.c, ioport.c, blockdev.c, bootdevice.c, balloon.c and the other small files: they would add only easy members.
- ChampSim, of which only a header is present.
