# Verified models of the ACRN device model

Dafny models of eight parts of the ACRN device model (`devicemodel/`), each with the
properties it is there for.  Where the C code changes things in place, so does the model: a
class or an array is updated step by step, and every method is tied to a function on values
about which the theorems are proved.

* **MMIO range registry** (`RbShape`, `RbTree`, `Mmio`, `MmioHistory`).  Guest addresses are dispatched
  through two parent-pointer red-black trees of ranges, in front of which sits a one-entry
  hint.  `RbShape` says what a well-formed tree is and what every rewriting step does to it;
  `RbTree` performs those steps on linked nodes; `Mmio` builds the registry and proves that
  every history of registrations, removals and accesses gets the answers of two plain sets of
  disjoint ranges.
* **Block I/O scheduler** (`BlockIf`, `BlockCtxt`, `BlockHistory`).  72 request elements on three queues, eight
  workers, one mutex and one condition variable.  `BlockIf` is the state machine of its critical
  sections with what holds over every run; `BlockCtxt` is the context whose methods take those
  steps in place.
* **Huge-page guest memory** (`HugeTlb`, `HugeSetup`).  Four guest segments are split over 1 GB
  and 2 MB pages.  `HugeTlb` proves what any exact split maps where; `HugeSetup` is the set-up
  code, with the kernel's answers as an arbitrary stream.
* **Event life cycle** (`Mevent`, `EventLoop`, `MeventHistory`).  One dispatcher with a batch of fetched events,
  any number of other threads that add, enable, disable and delete events.
* **E820 memory map** (`E820`).  In-place splitting and compaction of the table that section
  15.1 of the ACPI specification defines.
* **16550 UART** (`Uart`, `UartDevice`, `UartHistory`).  Receive ring, flow control, interrupt pin and the
  status registers of sections 8.4 to 8.9 of the PC16550D datasheet.
* **Tick conversion** (`Timer`) and **disk geometry** (`Chs`).

The four `History` modules say what the state machines do from the outside: which calls were
made, what they were answered, and what follows from that alone for the next one.

`Options`, `Sequences` and `Arithmetic` hold what they share.  `dafny verify dfyconfig.toml`
checks everything.

Where the code and its comments or its standard differ, the model follows the code: the flush
marker of `block_if.c` is `1 << (sizeof(off_t) - 1)`, that is 128; the last default E820 entry
starts at 4 GB although its comment says 5 GB; and `blockif_chs` compares with 65536\*16\*63,
where the Virtual Hard Disk specification has 65535\*16\*63.

Some expected laws fail on part of their inputs; they have a witness and an exact condition:

* A completion or cancellation can release a request although another outstanding one still ends
  where it starts (`BlockIf.OvertakenRun`).  Over a run every follower stays held if and only if
  no step does that (`BlockIf.RunChained`).
* A request accepted after the last worker has exited is stranded (`BlockIf.StrandedRun`); requests
  are served throughout a run if and only if there is none (`BlockIf.RunServed`).
* A callback that deletes an event further on in its own batch leaves a freed event in the batch
  (`Mevent.DanglingRun`).  A run is safe if and only if no such free happens (`Mevent.RunSafe`), and,
  once no deletion is under way, if and only if none was begun on such an event
  (`Mevent.CarefulExactly`).
* Two events can come to share a descriptor and close it twice (`Mevent.SharedDescriptorRun`); it
  is closed at most once if and only if it has one owner in the end (`Mevent.DescriptorOnce`).
* If memory, or what lies of it in front of the reserved areas, does not reach 1 MB, the E820
  table calls addresses RAM that are not, and otherwise never does (`E820.RamInside`).  Set-up
  accepts only multiples of 2 MB, which rules the first cause out (`E820.RamOutside`), but not the
  second: stolen GPU memory just above 4 GB is enough (`E820.RamBeyondMemory`).  For memory that
  set-up accepts the areas decide (`E820.SetUpMemoryInside`).
* The E820 table is sorted if and only if, besides, the reserved areas end in front of the PCI hole
  (`E820.TableSorted`); stolen GPU memory at 3.5 GB does not (`E820.Unsorted`).
* A tick count survives the round trip through a timespec if and only if nothing overflows and
  rounding up to a nanosecond adds less than a tick (`Timer.RoundTripIff`).  The second always
  holds up to 1 GHz (`Timer.RoundTripExact`) and fails for some tick count above it
  (`Timer.ExactFrequencies`).  One input fails in each way (`Timer.OverflowLoses`,
  `Timer.FastClockLoses`).
* Unregistering undoes a registration if and only if the range is not empty and not immutable
  (`Mmio.Undone`); an empty range stays for good (`Mmio.EmptyStays`, `Mmio.EmptyNotUndone`).

## Model

| member | source | states |
|---|---|---|
| RbShape.Tree.SoundMeans | devicemodel/include/tree.h:51-59 | A well-formed tree has parent and kid links that agree, a parentless node only at the root, no red node with a red kid, and the same number of black nodes on any two ways down |
| RbShape.Tree.InOrderIsOrder | devicemodel/include/tree.h:640-689 | An in-order walk along the kid links visits exactly the sequence of nodes the tree stands for |
| RbShape.Tree.HeightBound | devicemodel/include/tree.h:51-59 | 2^height is at most (n+1)^2, the header's height bound of 2 lg(n+1) |
| RbShape.Tree.SpunSound | devicemodel/include/tree.h:342-382 | A rotation keeps links, order and colours sound as soon as its two nodes are painted right |
| RbShape.Tree.FlipSound | devicemodel/include/tree.h:446-452 | Recolouring for a red uncle moves the red-red pair two levels up and leaves everything else sound |
| RbShape.Tree.SplicedSound | devicemodel/include/tree.h:622-633 | Taking out a node with at most one kid leaves a tree that is sound but for the missing black node |
| RbShape.Tree.SwappedSound | devicemodel/include/tree.h:599-612 | Putting the successor in the place of the removed node keeps the tree sound, with the flaw renamed |
| RbTree.Head.constructor | devicemodel/include/tree.h:309 | A new head is a well-formed empty tree |
| RbTree.Head.Rotate | devicemodel/include/tree.h:342-382 | The pointer writes of a left or right rotation, on either side, give exactly the rotated tree |
| RbTree.Head.InsertColor | devicemodel/include/tree.h:437-480 | From a tree whose only flaw is one red-red pair, the loop terminates with a red-black tree with black root and the same nodes in the same order |
| RbTree.Head.Insert | devicemodel/include/tree.h:640-670 | Returns an overlapping node and changes nothing if there is one; otherwise the tree stays red-black and disjoint and its order gains exactly the new node |
| RbTree.Head.Find | devicemodel/include/tree.h:672-689 | On disjoint ranges, finds a node overlapping the key if and only if one exists, although overlap is not transitive |
| RbTree.Head.RemoveColor | devicemodel/include/tree.h:482-570 | From a tree with one subtree a black node short, the loop terminates with a red-black tree with black root and the same nodes in the same order |
| RbTree.Head.RemoveRound | devicemodel/include/tree.h:488-527 | One round of the loop, with red sibling, black nephews, inner and outer red nephew, either ends the shortage or moves it strictly up |
| RbTree.Head.CutSuccessor | devicemodel/include/tree.h:582-598 | Takes out the successor of a node with two kids, and putting it at the node's place in the order gives the order without the node |
| RbTree.Head.Succeed | devicemodel/include/tree.h:599-637 | The successor takes over position, links and colour, and the colours are repaired |
| RbTree.Head.Remove | devicemodel/include/tree.h:572-638 | The tree stays red-black with black root, and its order is the old one minus exactly the removed node |
| RbShape.SpreadInsert | devicemodel/core/mem.c:93-111 | Inserting between the ranges below and the ranges above keeps the sequence ascending and disjoint |
| Mmio.RoomTaken | devicemodel/core/mem.c:65-111 | A node found by the lookup of the first address or by the insertion stands in the way of the new range |
| Mmio.RoomFree | devicemodel/core/mem.c:65-111 | If both find nothing, no registered range clashes with the new one or holds its first address |
| Mmio.RoomMeans | devicemodel/core/mem.c:65-73 | For a range that is not empty, room means that no registered range shares an address with it |
| Mmio.Undone | devicemodel/core/mem.c:192-257 | A range for which there is room is accepted, and unregistering it restores the set if and only if the range is not empty and not immutable |
| Mmio.EmptyNotUndone | devicemodel/core/mem.c:229-257 | An empty range at address 16 is accepted by an empty registry and then cannot be unregistered |
| Mmio.EmptyStays | devicemodel/core/mem.c:229-257 | An empty range that is registered is selected by no address and removed by no request |
| Mmio.HolderIs | devicemodel/core/mem.c:75-91 | A node that overlaps the one-address key is the only range holding the address |
| Mmio.Registry.constructor | devicemodel/core/mem.c:271-277 | The first init gives two empty trees and no hint |
| Mmio.Registry.Shallow | devicemodel/include/tree.h:51-59 | Whatever was registered and unregistered, both trees meet the height bound |
| Mmio.Registry.AddNode | devicemodel/core/mem.c:93-111 | The insertion adds the range if and only if there is room for it |
| Mmio.Registry.RegisterIn | devicemodel/core/mem.c:192-215 | Adds the range, empty or not, and returns 0 if and only if memory is there and no range of the tree stands in the way; otherwise -1 and the same ranges |
| Mmio.Registry.RemoveNode | devicemodel/core/mem.c:244-252 | Removing a found node takes exactly its range out of the set and leaves every other node |
| Mmio.Registry.UnregisterIn | devicemodel/core/mem.c:229-257 | Removes exactly the range at that base with the same name, base and size and without the immutable flag; otherwise -1 and the same ranges |
| Mmio.Registry.Select | devicemodel/core/mem.c:160-180 | Through the hint or not, selects what the two sets of ranges say, and the hint stays null or a live root node |
| Mmio.Registry.Register | devicemodel/core/mem.c:217-227 | Registration in either tree answers as the specification does and keeps the registry valid; which tree it reaches is MmioHistory.Membership |
| Mmio.Registry.Unregister | devicemodel/core/mem.c:229-269 | Removal from either tree answers as the specification does and never leaves a dangling hint |
| Mmio.Replay | devicemodel/core/mem.c:160-257 | Every history of register, unregister and access calls gets the answers of two plain sets of ranges |
| Mmio.RunDisjoint | devicemodel/core/mem.c:192-215 | In every history neither tree ever holds two ranges that share an address |
| Mmio.RunSelects | devicemodel/core/mem.c:160-180 | An access selects a range if and only if it is the root range that holds the address, or the fallback range if no root range does |
| MmioHistory.Membership | devicemodel/core/mem.c:192-269 | Over every history from the empty registry, a range is in the root tree if and only if a registration there was answered 0 and, unless the range is empty, no later removal at its base there was; the same for the fallback tree |
| MmioHistory.RegisterIsLawful | devicemodel/core/mem.c:192-227 | A registration is answered 0 if and only if memory is there and no range that is live in the same tree shares an address with it or stands around its first address, and -1 otherwise; told from the calls and answers before |
| MmioHistory.UnregisterIsLawful | devicemodel/core/mem.c:229-269 | A removal is answered 0 if and only if the range live at that base in the same tree has the same name, base and size and is not immutable, and -1 otherwise |
| MmioHistory.AccessIsLawful | devicemodel/core/mem.c:160-180 | An access selects the range live in the root tree that holds the address, or else the one live in the fallback tree, or none |
| MmioHistory.SameNameMeans | devicemodel/core/mem.c:229-257 | Two names count as the same if and only if they agree in each of their first 80 positions, the end of a shorter one included |
| MmioHistory.CoversMeans | devicemodel/core/mem.c:65-91 | A range that is not empty holds exactly as many addresses as its size, from its base on |
| MmioHistory.ClashMeans | devicemodel/core/mem.c:65-73 | Two ranges that are not empty clash if and only if some address is in both |
| MmioHistory.Serve | devicemodel/core/mem.c:160-257 | The registry on its linked trees gives every history answers that are lawful in this sense |
| BlockIf.RunInv | devicemodel/hw/block_if.c:160-243 | In every reachable state the queues partition the 72 elements by status, the pending queue is in acceptance order, every blocked element is behind an outstanding one that ends where it starts, each element in flight has its worker, and every accepted request is accounted for once |
| BlockIf.NoLostWakeup | devicemodel/hw/block_if.c:391-402 | In every reachable state with a pending request some worker is neither waiting nor exited, until all have exited |
| BlockIf.HeadReady | devicemodel/hw/block_if.c:212-223 | In every reachable state with nothing in flight the head of the pending queue can be dispatched |
| BlockIf.RunServed | devicemodel/hw/block_if.c:391-402 | Throughout a run some worker is awake whenever a request is pending if and only if no request is accepted after the last worker has exited |
| BlockIf.StrandedRun | devicemodel/hw/block_if.c:776-804 | A run in which a request accepted after close stays pending with every worker gone |
| BlockIf.CloseDrains | devicemodel/hw/block_if.c:905-922 | When all workers have exited and no request came too late both queues are empty, and every accepted request was completed once with one callback or cancelled once with none |
| BlockIf.RunProgress | devicemodel/hw/block_if.c:379-407 | In every run the workers' steps and what is left to do are together bounded by 5 per request, 8 per close and at the start, and 1 per spurious wakeup: workers never spin |
| BlockIf.StepProgress | devicemodel/hw/block_if.c:379-407 | Every worker step lowers what is left to do, and any other step raises it by at most its credit |
| BlockIf.QuietIsDone | devicemodel/hw/block_if.c:391-402 | When no worker can take a step and no request came too late, both queues are empty and every accepted request was completed once or cancelled once |
| BlockIf.WorkersFinish | devicemodel/hw/block_if.c:379-407 | From every reachable state the workers alone reach such a state, within what is left to do |
| BlockIf.RunChained | devicemodel/hw/block_if.c:181-243 | Throughout a run every request accepted behind an outstanding one is held back if and only if no completion or cancellation lets anybody overtake |
| BlockIf.StepChained | devicemodel/hw/block_if.c:160-243 | Whatever the step, it keeps every follower held if and only if it lets nobody overtake |
| BlockIf.DispatchInOrder | devicemodel/hw/block_if.c:181-223 | If nobody overtakes, no request is dispatched while one it was accepted behind is outstanding |
| BlockIf.DistinctEnough | devicemodel/hw/block_if.c:181-204 | If outstanding requests always end at distinct blocks, nobody overtakes |
| BlockIf.CompletedChained | devicemodel/hw/block_if.c:226-243 | A completion or cancellation keeps every follower held if and only if no other outstanding request ends at the same block as the one taken out and holds a follower |
| BlockIf.OvertakenRun | devicemodel/hw/block_if.c:226-243 | A run in which a follower becomes dispatchable while the request it was accepted behind is outstanding |
| BlockIf.StepInv | devicemodel/hw/block_if.c:160-933 | Every critical section keeps the invariant, including the cancellation that unblocks followers without a signal |
| BlockIf.StepBooks | devicemodel/hw/block_if.c:226-243 | Every critical section keeps the account of each ticket: outstanding, completed once or cancelled once |
| BlockIf.RequestInv | devicemodel/hw/block_if.c:776-804 | Submitting, with its signal only for a dispatchable request, keeps the invariant |
| BlockIf.CancelInv | devicemodel/hw/block_if.c:839-851 | Cancelling a pending request keeps the invariant |
| BlockHistory.RunRemembers | devicemodel/hw/block_if.c:160-205 | In every reachable state an outstanding element holds the request accepted with its ticket, and ends at offset plus length if that is no flush, and at the flush marker if it is |
| BlockHistory.Lengths | devicemodel/hw/block_if.c:181-183 | The length of a request is additive over its segments |
| BlockHistory.BlockedExactly | devicemodel/hw/block_if.c:189-243 | In every reachable state a blocked request starts where an earlier outstanding one ends; while nobody overtakes, whoever starts where an earlier outstanding read, write, discard or flush ends is blocked |
| BlockHistory.FullMeans | devicemodel/hw/block_if.c:776-804 | A request is refused if and only if 72 are outstanding |
| BlockHistory.OldestFirst | devicemodel/hw/block_if.c:207-224 | A worker that looks for work gets the dispatchable request with the lowest ticket, and only without one waits, or exits when closing |
| BlockHistory.OldestCancelled | devicemodel/hw/block_if.c:839-851 | Cancelling drops the pending request with that identity and the lowest ticket |
| BlockHistory.NothingElseCancelled | devicemodel/hw/block_if.c:839-851 | Cancelling changes something only if a pending request has that identity |
| BlockHistory.SearchesFind | devicemodel/hw/block_if.c:839-903 | The two searches of a cancellation find a request if and only if one with that identity is pending, or in the hands of a worker |
| BlockCtxt.Ctxt.constructor | devicemodel/hw/block_if.c:742-757 | The queue set-up loop builds the initial state |
| BlockCtxt.Ctxt.Enqueue | devicemodel/hw/block_if.c:160-205 | Takes the head of the free queue, blocks it if a queued or busy request ends at its offset, appends it to the pending queue and reports whether it can be dispatched; what the end is to a request is BlockHistory.RunRemembers |
| BlockCtxt.Ctxt.Dequeue | devicemodel/hw/block_if.c:207-224 | Moves the first pending element that is not blocked to the busy queue for this worker, or changes nothing |
| BlockCtxt.Ctxt.Complete | devicemodel/hw/block_if.c:226-243 | Unlinks the element, unblocks every pending one that starts at its end, and appends it to the free queue |
| BlockCtxt.Ctxt.Submit | devicemodel/hw/block_if.c:776-804 | Takes the submission step, before close or after; accepted if and only if an element was free |
| BlockCtxt.Ctxt.TryWork | devicemodel/hw/block_if.c:390-402 | One look of a worker for work: dispatch, wait, or exit when closing |
| BlockCtxt.Ctxt.FinishWork | devicemodel/hw/block_if.c:329-377 | The request is carried out outside the lock and its callback recorded once |
| BlockCtxt.Ctxt.CompleteWork | devicemodel/hw/block_if.c:392-397 | Back under the lock the element is completed |
| BlockCtxt.Ctxt.CancelRequest | devicemodel/hw/block_if.c:830-903 | 0 if a pending element holds the request, which is taken out, -EBUSY if it is in flight, -1 if no element holds it |
| BlockCtxt.Ctxt.CloseCtxt | devicemodel/hw/block_if.c:905-922 | Sets closing and wakes every waiting worker |
| HugeTlb.RegionsTile | devicemodel/core/hugetlb.c:209-287 | The recorded regions number at most eight, share no guest address, and are together exactly lowmem, highmem, biosmem and fbmem |
| HugeTlb.RegionsSeated | devicemodel/core/hugetlb.c:209-256 | Every region begins and ends on a page boundary of its level, in the guest and in the file, and lies inside the level's total |
| HugeTlb.TranslateBacked | devicemodel/core/hugetlb.c:858-884 | An address has a place if and only if one of the segments holds it, and the place lies inside the sealed size of its file |
| HugeTlb.TranslateInjective | devicemodel/core/hugetlb.c:858-884 | Different guest addresses are at different places |
| HugeTlb.MapGpaBacked | devicemodel/core/vmmapi.c:423-444 | Every address of a range that vm_map_gpa accepts has exactly one region |
| HugeTlb.MapGpaExactly | devicemodel/core/vmmapi.c:423-444 | A range that is not empty is accepted if and only if it begins and ends in lowmem, or begins and ends in highmem |
| HugeTlb.DmabufContiguous | devicemodel/core/hugetlb.c:886-916 | If dma-buf is allowed, any two addresses of lowmem, or of highmem, are in one file at the same distance as in the guest |
| HugeTlb.DmabufExactly | devicemodel/core/hugetlb.c:886-916 | dma-buf is allowed if and only if lowmem and highmem are each one stretch of one file |
| HugeTlb.PageTogether | devicemodel/core/hugetlb.c:209-287 | Every 2 MB page of the guest lies in one stretch of one file |
| HugeTlb.BackedMeans | devicemodel/core/hugetlb.c:732-762 | Guest memory is exactly lowmem from 0, highmem from 4 GB, and firmware and frame buffer ending at 4 GB |
| HugeTlb.TranslateOnto | devicemodel/core/hugetlb.c:764-786 | Every byte of a file, up to its sealed size, is at some guest address: with TranslateInjective a bijection |
| HugeTlb.TranslateOrdered | devicemodel/core/hugetlb.c:289-356 | In a file lowmem lies in front of highmem, that in front of the firmware, and that in front of the frame buffer |
| HugeSetup.VmCtx | devicemodel/core/vmmapi.c:371-390 | lowmem and highmem add up to the memory size, lowmem stays within its limit, and highmem is used only when lowmem is full |
| HugeSetup.MovedSplit | devicemodel/core/hugetlb.c:258-287 | Moving whole pages of one segment down a level keeps the split exact and the segments mapped before it where they are |
| HugeSetup.Memory.MmapFromLevel | devicemodel/core/hugetlb.c:209-256 | Fails if and only if the table is full, the level has no file or the kernel refuses the mapping; appends one region on success, changes nothing on failure |
| HugeSetup.Memory.MmapLevel | devicemodel/core/hugetlb.c:265-283 | Gives up one large page for every mapping the kernel refuses until the rest can be mapped; what was given up is added to the smaller level |
| HugeSetup.Memory.MmapSegment | devicemodel/core/hugetlb.c:258-287 | For every pattern of failures, success records exactly the pieces of the resulting split, and failure means that a 2 MB mapping was refused, has no file or has no room in the table |
| HugeSetup.Memory.SplitLevels | devicemodel/core/hugetlb.c:655-688 | Splits every segment exactly into a multiple of 1 GB and a multiple of 2 MB, the latter less than 1 GB if the 1 GB level is open |
| HugeSetup.Memory.CheckMemgap | devicemodel/core/hugetlb.c:385-410 | Each level's account is exactly its need less the free pages the kernel told, and there is a gap if and only if some level needs more than it has |
| HugeSetup.Memory.ReserveMore | devicemodel/core/hugetlb.c:413-435 | The account falls by exactly the pages the kernel gained by its own answers; a 2 MB reservation counts as granted if and only if that is all it asked for |
| HugeSetup.Memory.ReleaseLarger | devicemodel/core/hugetlb.c:438-475 | Succeeds if and only if the 1 GB level has a surplus and the kernel takes a page back; any further page the kernel took is recorded, and so is a refusal |
| HugeSetup.Memory.ReservePages | devicemodel/core/hugetlb.c:491-540 | Terminates for every kernel response, and returns true if and only if free 2 MB pages cover the 2 MB need plus 512 times what the 1 GB level is still short of; it fails only without a 1 GB page to spare or when the kernel refuses to take one back, and never if the kernel grants every 2 MB reservation in full; releases never overdraw the 1 GB level's own need, but for pages the kernel takes back beyond those asked for, which are counted |
| HugeSetup.Memory.Reopen | devicemodel/core/hugetlb.c:619-632 | Open files are kept, and a level stays closed only if the kernel gives it no descriptor of its own |
| HugeSetup.Memory.MmapAll | devicemodel/core/hugetlb.c:732-762 | The table has room for all regions: the four segments are mapped unless the kernel refuses a 2 MB mapping or there is no 2 MB file, and the split changes only by refused 1 GB mappings |
| HugeSetup.Memory.Seal | devicemodel/core/hugetlb.c:764-786 | Every open file is sealed at its level's total unless the kernel refuses |
| HugeSetup.Memory.Setup | devicemodel/core/hugetlb.c:603-841 | A set-up that succeeds, whatever the kernel answered, has an exact split, distinct open files of the sealed size and exactly the regions of the split, with nothing that fills a 1 GB page on small pages unless a 1 GB mapping was refused; one that fails had a size that is no positive multiple of 2 MB, was refused something it cannot do without, or was not granted a 2 MB reservation in full |
| HugeSetup.Memory.FindRegion | devicemodel/core/hugetlb.c:858-884 | The search loop finds the place of an address or none |
| HugeSetup.Memory.Dmabuf | devicemodel/core/hugetlb.c:886-916 | The flag computation decides whether lowmem and highmem are each on one level |
| HugeSetup.HighBiosSize | devicemodel/core/main.c:235-241 | The least multiple of 2 MB that holds the firmware image; at most 2 MB, the loader's limit |
| HugeSetup.SetupVm | devicemodel/core/vmmapi.c:371-390 | After a successful set-up exactly the backed guest addresses have a place, inside the sealed size of its file, different ones different places, and with dma-buf each of lowmem and highmem is contiguous in one file; only positive multiples of 2 MB are set up, and each of them is if the kernel refuses nothing and has the pages |
| Mevent.RunInv | devicemodel/core/mevent.c:193-356 | In every interleaving: an event is on the list if and only if live, on the deletion list if and only if queued, each once; it is torn down, freed and closed together and at most once; what epoll can return is not freed |
| Mevent.RunSafe | devicemodel/core/mevent.c:193-205 | No state of a run leaves a freed event in the rest of the batch if and only if no deletion on the dispatcher thread frees one that is there |
| Mevent.CarefulRun | devicemodel/core/mevent.c:334-356 | It suffices that dispatcher-thread deletions begin on events that are not ahead in the batch |
| Mevent.CarefulExactly | devicemodel/core/mevent.c:193-205 | For a run that ends with no dispatcher-thread deletion under way it is also necessary |
| Mevent.DanglingRun | devicemodel/core/mevent.c:193-205 | A run in which a callback deletes an event ahead in its batch and leaves it there freed |
| Mevent.DeletedOnce | devicemodel/core/mevent.c:305-356 | A deletion on the dispatcher thread, or one from elsewhere followed by a drain, leaves the event torn down and freed exactly once ever after |
| Mevent.FreedWasDeleted | devicemodel/core/mevent.c:315-356 | Conversely nothing is freed that was not deleted |
| Mevent.DestroyReclaims | devicemodel/core/mevent.c:149-191 | At the end every event ever added has been torn down and freed exactly once, and none has closed its descriptor twice |
| Mevent.DescriptorOnce | devicemodel/core/mevent.c:149-191 | A descriptor is closed at most once on behalf of its events if and only if no two events that have closed it, or are closable and still listed or queued, have it |
| Mevent.SharedDescriptorRun | devicemodel/core/mevent.c:149-191 | A run after which one descriptor is closed twice |
| MeventHistory.RunTold | devicemodel/core/mevent.c:207-356 | In every state of every run the history tells of each event its descriptor and kind, whether its me_state is set, whether its descriptor is to be closed, and whether epoll watches its descriptor for it; epoll is a map from descriptors to events |
| MeventHistory.CallbackRuns | devicemodel/core/mevent.c:193-205 | When the dispatcher looks at an event of its batch, the callback runs if and only if no deletion has cleared the state of that event before |
| MeventHistory.ClosedAsAsked | devicemodel/core/mevent.c:315-356 | An event that is gone has closed its descriptor, once, if and only if its deletion asked for that, and any other event has not |
| MeventHistory.DestroyCloses | devicemodel/core/mevent.c:149-191 | After mevent_destroy an event has closed its descriptor as its deletion asked if that was over, and otherwise if and only if it is a read or write event and the descriptor is not 0 |
| MeventHistory.RegisteredIsWatched | devicemodel/core/mevent.c:246-300 | epoll has a registration for a descriptor if and only if the history leaves it watched, and then for one event |
| EventLoop.Loop.Lookup | devicemodel/core/mevent.c:222-230 | Finds the first listed event with this descriptor and kind if and only if there is one |
| EventLoop.Loop.Add | devicemodel/core/mevent.c:207-262 | Returns the listed event with the same descriptor and kind; without one registers and lists a new one if epoll has room and no registration for the descriptor, and otherwise fails without a trace |
| EventLoop.Loop.DeleteEvent | devicemodel/core/mevent.c:334-356 | Takes exactly the four steps of a deletion, ending in a free on the dispatcher thread and in the deletion list elsewhere |
| EventLoop.Loop.Handle | devicemodel/core/mevent.c:193-205 | With other threads adding, enabling, disabling and deleting events before and during each callback, and callbacks deleting any events, the batch is looked at in order and each callback runs if and only if no deletion has cleared its event by then |
| EventLoop.Loop.DrainDelList | devicemodel/core/mevent.c:315-332 | Frees every queued event once and empties the list |
| EventLoop.Loop.Destroy | devicemodel/core/mevent.c:149-191 | Both walks together end every listed and every queued event |
| E820.AddEntry | devicemodel/core/sw_load_common.c:165-215 | Search, memmove and rewriting give the table with the containing entry replaced by its pieces, the returned length, and nothing else changed |
| E820.AddedTypes | devicemodel/core/sw_load_common.c:165-215 | The type of an address changes to the given one exactly on the range |
| E820.AddedSorted | devicemodel/core/sw_load_common.c:165-215 | A sorted table without overlaps stays one, grows by at most two entries, gains no empty entry, and stays as it is if no entry contains the range |
| E820.AddedCovers | devicemodel/core/sw_load_common.c:165-215 | No address gains or loses an entry |
| E820.AddAllTypes | devicemodel/core/sw_load_common.c:165-215 | After any number of additions the table is sorted and an address has the type of the last accepted range that holds it |
| E820.Compact | devicemodel/core/sw_load_common.c:272-280 | The in-place removal loop equals an order-preserving filter of the empty entries that never looks at the last one |
| E820.Create | devicemodel/core/sw_load_common.c:217-293 | The table is the compacted seven entries and the returned count is its length |
| E820.RemoveAt | devicemodel/core/sw_load_common.c:274-279 | The memmove takes out one entry of the live table, whatever stale entries follow |
| E820.Fill | devicemodel/core/sw_load_common.c:217-270 | The field updates on the default entries give the seven intended entries, with 64-bit subtraction |
| E820.TableSorted | devicemodel/core/sw_load_common.c:217-293 | The table is sorted without overlaps if and only if memory and what lies in front of the reserved areas reach 1 MB and the reserved areas end below the PCI hole; it has an empty entry if and only if there is no highmem, then only the last |
| E820.TableTypes | devicemodel/core/sw_load_common.c:217-293 | Without wrap-around, for every address and wherever the GPU area is, whether the table calls it RAM, reserved or nothing; where the area meets memory above 4 GB the area wins |
| E820.WrappedTypes | devicemodel/core/sw_load_common.c:248-255 | With wrap-around every 64-bit address from 1 MB on is called RAM |
| E820.RamInside | devicemodel/core/sw_load_common.c:217-293 | For every layout of the reserved areas, RAM is reported only inside [0, lowmem) and [4G, 4G+highmem) if and only if lowmem and what lies in front of the reserved areas reach 1 MB |
| E820.SetUpMemoryInside | devicemodel/core/hugetlb.c:615-640 | For memory that set-up accepts, RAM is reported only where it is if and only if the reserved areas begin at 1 MB or above |
| E820.RamOutside | devicemodel/core/sw_load_common.c:248-251 | With half a megabyte of memory the address 1 MB is called RAM |
| E820.RamBeyondMemory | devicemodel/hw/pci/passthrough.c:646-673 | With stolen GPU memory at 4 GB + 1 MB, whose area address is truncated to 32 bits, and memory that set-up accepts, the address at the end of memory is called RAM |
| E820.Unsorted | devicemodel/hw/pci/passthrough.c:646-673 | With stolen GPU memory at 3.5 GB the table is not sorted |
| Uart.RunInv | devicemodel/hw/uart_core.c:165-606 | In every run: accepted bytes are the bytes read followed by the queue, the event is enabled if and only if the queue is not full, the capacity matches FCR, the overrun bit says whether a byte was lost since the last LSR read, and the pin is high if and only if an interrupt reason is pending |
| Uart.ModemBits | devicemodel/hw/uart_core.c:280-308 | In every run the high half of MSR is modem_status(MCR), and each delta bit is set if and only if its input changed, or the ring indicator fell, since the last MSR read |
| Uart.LineBits | devicemodel/hw/uart_core.c:571-585 | In every run a read of LSR shows data ready if and only if the queue holds a byte, the overrun bit if and only if a byte was lost since the last read, and an idle transmitter |
| Uart.PinMeans | devicemodel/hw/uart_core.c:318-349 | In every run the pin is high if and only if some enabled interrupt source is active, and reading IIR withdraws a reported transmitter interrupt |
| Uart.RunConserves | devicemodel/hw/uart_core.c:369-395 | Without reset and loopback, what arrived is what the guest read, then the queue, then what the terminal still has: nothing dropped, doubled or reordered |
| UartHistory.RunTold | devicemodel/hw/uart_core.c:351-606 | Over every run each register is the last value written to it under the right DLAB setting, masked; with a terminal the output is, in order, the bytes written to the data register with DLAB and loopback clear, and without one it is empty; the queue is what entered since the last reset less what was read; overruns, transmitter interrupt and modem inputs are as the accesses tell |
| UartHistory.ReadTold | devicemodel/hw/uart_core.c:521-606 | What a read returns, for every offset, from the accesses before it |
| UartHistory.PendingTold | devicemodel/hw/uart_core.c:318-349 | The reported interrupt is line status before received data before transmitter before modem status, each if enabled and active by the accesses so far, and the pin is high if and only if there is one |
| UartHistory.MsrTold | devicemodel/hw/uart_core.c:273-308 | The modem status is the wired inputs and the four change bits, each told from the inputs since the last read |
| UartHistory.WiringIs | devicemodel/hw/uart_core.c:273-308 | In loopback RTS, DTR, OUT1 and OUT2 show as CTS, DSR, RI and DCD; otherwise DCD and DSR are on |
| UartHistory.NextLine | devicemodel/hw/uart_core.c:165-228 | Whatever the access or event, the queue and the terminal follow the bytes that entered, were read and wait |
| Uart.FillQueue | devicemodel/hw/uart_core.c:369-395 | Draining keeps capacity, conservation and flow control |
| Uart.FcrQueue | devicemodel/hw/uart_core.c:445-468 | Writing FCR keeps the capacity in step with the enable bit, with or without resets |
| UartDevice.Receiver.ResetFifo | devicemodel/hw/uart_core.c:165-180 | Empties the ring, clamps the size and resets the backend |
| UartDevice.Receiver.ResetBackend | devicemodel/hw/uart_core.c:756-799 | Flushes all unread input and enables the event |
| UartDevice.Receiver.PutChar | devicemodel/hw/uart_core.c:191-207 | The ring write is an append to the queue; a full queue refuses, and filling up disables the event |
| UartDevice.Receiver.GetChar | devicemodel/hw/uart_core.c:209-228 | The ring read removes the oldest byte, and leaving the full state enables the event |
| UartDevice.Receiver.DrainAll | devicemodel/hw/uart_core.c:386-387 | The loop moves as many bytes as there are, as fit and as can be read, in order |
| UartDevice.Receiver.WriteFifoControl | devicemodel/hw/uart_core.c:445-468 | The FCR write, its two resets included |
| UartDevice.Device.constructor | devicemodel/hw/uart_core.c:351-367 | The reset state |
| UartDevice.Device.UpdateMsr | devicemodel/hw/uart_core.c:472-497 | The four tests and the masking give the new inputs with exactly the raised delta bits |
| UartDevice.Device.WriteRegister | devicemodel/hw/uart_core.c:397-519 | Takes the write step of the specification for every offset, DLAB included; what that step means is UartHistory.RunTold |
| UartDevice.Device.ReadRegister | devicemodel/hw/uart_core.c:521-606 | Takes the read step and returns the specified value for every offset, DLAB included |
| UartDevice.Device.DrainEvent | devicemodel/hw/uart_core.c:369-395 | Discards one byte in loopback, fills the queue otherwise |
| UartDevice.Replay | devicemodel/hw/uart_core.c:369-606 | For every history of accesses, events and input the guest reads, the terminal gets and the pin shows what UartHistory tells from that history alone, which is also what the specification says |
| Timer.RoundTripIff | devicemodel/include/timer.h:34-55 | For every 32-bit frequency the round trip returns the ticks if and only if nothing overflows and rounding up adds less than a tick |
| Timer.RoundTripExact | devicemodel/include/timer.h:34-55 | For clocks up to 1 GHz the round trip returns the ticks if and only if the product and its rounding stay within 64 bits |
| Timer.Earliest | devicemodel/include/timer.h:45-55 | The timespec is normalised and is the earliest nanosecond at which the ticks have elapsed |
| Timer.ApartIsWhole | devicemodel/include/timer.h:34-42 | Without overflow the ticks of a timespec are those of its whole length, although seconds and nanoseconds are converted apart |
| Timer.OverflowLoses | devicemodel/include/timer.h:34-55 | The first tick count whose product overflows does not come back |
| Timer.FastClockLoses | devicemodel/include/timer.h:34-55 | One tick of a 2 GHz clock comes back as two |
| Timer.ExactFrequencies | devicemodel/include/timer.h:34-55 | Over all tick counts a 32-bit frequency is exact if and only if it is at most 1 GHz |
| Chs.Compute | devicemodel/hw/block_if.c:939-980 | With 8-bit heads and 16-bit cylinders the result is that of the untruncated calculation |
| Chs.Bounds | devicemodel/hw/block_if.c:939-980 | The cylinders fit 16 bits, and the geometry covers the clamped disk but for less than one cylinder |
| Chs.ShapeMeans | devicemodel/hw/block_if.c:953-975 | Exactly which disks get 17, 31, 63 and 255 sectors per track, and that the heads are 16 or, with 17 sectors, the fewest that do, at least four |
| Chs.ClampMeans | devicemodel/hw/block_if.c:949-951 | Up to 267382800 sectors the disk is described as it is; any larger one gets 65535 cylinders, 16 heads and 255 sectors |

## Left out

- Machine integers: guest addresses, ranges and sizes are unbounded integers; start+size in `E820` is taken not to exceed 2^64. The 64-bit wrap-around is modelled where it decides a result (`Mmio`, `E820`, `Timer`), and the 8- and 16-bit truncations of `Chs`.
- Mmio.Registry.Register: ranges whose last address wraps around 2^64 are excluded, an empty range at address 0 excepted; such a node would end before it begins and break the order of the tree.
- Mmio.Registry.RegisterIn: the same.
- Mmio.Replay: the same.
- Mmio.Registry.constructor: a second `init_mem`, which does not clear the hint, is not modelled.
- The left and right halves of the tree macros are mirror images; `RbTree` has them once, with the side as a parameter. The augmentation hook, `RB_NEXT`, `RB_PREV`, `RB_MINMAX`, `RB_NFIND` and the splay trees are not modelled.
- The handler callbacks after the range is selected, and the read-write lock around them.
- BlockCtxt.Ctxt.Submit: a pending request keeps its offset.
- BlockCtxt.Ctxt.CancelRequest: the interrupt handshake for a request in flight is "-EBUSY, queues unchanged".
- Data transfer, discard ranges, option parsing and file handling of `block_if.c`.
- System calls are oracles: mmap results, page counts and descriptors are arbitrary answers, except that a new descriptor is positive and not in use.
- HugeSetup.Memory.Setup: `fbmem` is 16 MB and `biosmem` below 1 GB; `vm_setup_memory` is the only caller and passes 16 MB and a rounded firmware image, which `devicemodel/core/sw_load_ovmf.c` limits to 2 MB. `vm_unsetup_memory` is not modelled.
- Enabling an event while it is being deleted, deleting it twice, deletions from inside a teardown during the drain, and the notification pipe of `mevent.c`.
- EventLoop.Loop.Add: a call that no other thread interrupts between lookup and insertion; interrupted ones are the steps AddPoll and AddList of `Mevent`.
- EventLoop.Loop.DeleteEvent: a call that no other thread interrupts; interrupted ones are the steps of a deletion in `Mevent`.
- EventLoop.Loop.Handle: other threads step in between the deletions that a callback makes, not inside one; MeventHistory.CallbackRuns holds for every interleaving.
- Mevent.DescriptorOnce: descriptors that a teardown callback closes by itself, as the UART's does, are not counted.
- E820.TableSorted: takes lowmem within its 2 GB limit and the SSRAM area below the GPU area, as `vm_setup_memory` and `devicemodel/hw/platform/vssram/vssram.c` leave them.
- E820.TableTypes: the same; with wrap-around E820.WrappedTypes says what is called RAM from 1 MB on, and the gap between video memory and 1 MB is left open.
- The TCP backend of the UART with its connections, failing event calls, and the short interrupt pulse inside a data write; flushing is taken to read everything there is.
- `inout.c`, `vga.c`, the loaders, the monitor and the other emulated devices: easy members or external formats.
