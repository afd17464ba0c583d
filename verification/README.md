# A verified model of the emulated TCP/IP stack's core

The server of this repository is an emulated TCP/IP stack that brings its own data structures and
its own scheduling. This project models the parts of it that carry hard invariants and proves what
they promise, with the Dafny verifier: `dafny verify dfyconfig.toml`.

Where the C code changes things in place, the model does, too: each structure is a class whose
methods follow the functions of the C file branch by branch, and each method is proved against a
value that stands for the whole structure (a sequence of nodes, a map of blocks, a graph, a record of
deadlines). What the structure promises is then proved about that value. Protocols are transition
systems whose steps are the methods' effects, and the theorems about them hold in every state of
every run.

- **AVL tree** (`Avl.dfy`). Nodes with child links, parent links and balances, rewired in place. Ghost
  positions turn order, shape and balance into facts about a node and its neighbours, so that every
  rotation, insertion and removal is proved to restore the whole invariant; recursive definitions of
  in-order sequence and height, which use the child links alone, say that the invariant means what
  it should.
- **Block allocator** (`MemoryChains.dfy`, `MemoryPages.dfy`, `MemoryManager.dfy`). Block headers and pages
  as linked objects; pages as chains of blocks on values. Extents are stated with gaps: joining two
  free blocks leaves the bytes of the second header and body out of the first one's size.
- **Timing wheel** (`Deadlines.dfy`, `WheelSlots.dfy`, `WheelTimer.dfy`). The wheel with its slots and its
  deferred requests refines a plain record of deadlines; when an element is submitted is proved of
  that record, over every run.
- **DDCP query flood** (`Ddcp.dfy`, `DdcpFlood.dfy`). The per-node code, and a network of such nodes over
  an arbitrary topology with messages in flight.
- **Event dispatcher** (`EventDispatcher.dfy`, `DispatcherRuns.dfy`, `ScheduleRace.dfy`). The dispatcher's
  record under its mutex, producers, callbacks and dispatcher as a transition system, and the scheduling of one
  packet-queue task taken apart into the test and the assertion before the mutex and the insertion under it.
- **Traffic-engineering database** (`TedGraph.dfy`, `Ted.dfy`). Nodes, half-links and links that point at
  each other, and the XOR flag that tells which ends are attached.
- **VLAN switching** (`EthernetFrames.dfy`, `L2Switch.dfy`, `VlanNetwork.dfy`). Tagging in a packet buffer,
  one switch, and a network of switches: what each frame is delivered to, and what it never reaches (IEEE
  802.1Q-2018, clauses 8.6.2, 8.6.4 and 9.6).
- **Route table** (`AddressText.dfy`, `RouteTable.dfy`). Longest-prefix match (RFC 1812, section 5.2.4.3),
  with addresses compared as the texts the code compares.
- **Intrusive list** (`GlThread.dfy`). The doubly linked list the other parts are built on.

## Where the code does less than it promises

The model keeps the code as it is. Each of these is a theorem that gives the exact condition, or a
run in which the promise fails:

- The dispatcher waits for itself, for good, if and only if a synchronous background job has had a turn, or a
  synchronous one-shot job had one after it was marked for rescheduling, or a callback has created a
  synchronous job, or a synchronous packet-queue job had packets left after a turn or got one from a callback: in
  all four `event_dispatcher_schedule_task` waits on the dispatcher's own thread.
  `DispatcherRuns.StuckExactlyWhen` says so over all runs, `NeverStuck` is what callers have to avoid,
  `StuckIsReachable` gives a run. And the creator of a synchronous packet-queue job is never woken, even if the
  job has run and all is quiet: `QuietMeansDone` says that just these creators still wait, and producers that
  put such a job on the queue.
- A packet-queue task can be put on the queue while it is on it, because the test comes before the mutex is
  taken, or the assertion behind the test fails: `ScheduleRace.DoubledExactly` and `FailsExactly` say when,
  `DoubledRun` and `FailedRun` give runs, `GlThreads.AddLastAgain` and `LoopsForever` say what doubling does to the
  list, and `NeverDoubled` that neither can happen with the test inside.
- A request for periodic DDCP queries takes a sequence number and sends nothing. The others then have what the
  node last sent out, not what it has recorded for itself: `DdcpFlood.FloodReachesAll` says that the two are
  equal exactly when the node has no number in hand, `NumberingLeavesBehind` and `AheadFromTheStart` show the
  state after such a request.
- DDCP compares sequence numbers as plain integers: when an originator's number wraps, its neighbours
  ignore its queries (`DdcpFlood.MonotoneUnlessWrapping`, `DdcpFlood.WrappedQueryIsIgnored`). All other
  theorems about runs of that network are about runs in which no number has wrapped.
- The route look-up accepts a route whose text merely begins with that of the masked address:
  10.1.1.10/32 for 10.1.1.1 (`RouteTable.WrongHost`). `TextMatchesExactly` says what is accepted, `RightExactly`
  when the answer is the longest match all the same, `OrderMattersExactly` when it depends on the order of
  the list. And `rt_table_add_route` sets no interface index in a next hop, so that the sorted insertion by
  index only ever appends (`RouteTable.InsertedLast`).
- Joining free blocks does not enlarge the first one: `MemoryChains.JoinedLoses` and `ReleasedRoom` give the
  recorded size against the room, which are equal exactly when nothing was joined (`GapExactly`). So a new page may
  be taken although contiguous free room would do; `MemoryPages.WastedRoom` is such a state.
- `tci_vid` is a signed 12-bit field: a tag reads back as the VLAN it was written for exactly when that
  is at most 2047 (`EthernetFrames.VidReadBack`). A frame of a higher VLAN gets out of no port that
  carries it (`VlanNetwork.OutExactly`), so isolation still holds for all of them.
- `interface_set_vlan` overwrites the last VLAN of an access interface that is in use, while the first one counts:
  the interface operates in the VLAN set if and only if it did already or all places behind the first are 0
  (`L2Switch.Interface.SetVlan`). `StaleVlan` gets there by way of a trunk and an IP address.
- The MAC table knows of no VLANs and the switch does not compare the port listed with the one a frame came in by: a
  frame for an address last seen on a port of other VLANs is sent nowhere, and one for an address last seen on the
  port it came in by goes back out of it (`L2Switch.KnownDelivers`, `L2Switch.LearntDelivers`).
- Tagging clears the frame check sequence: untagging gives the frame back exactly when that was zero
  (`EthernetFrames.TagThenUntag`).
- The XOR flag tells whether a link is detached exactly when it is, or its ends differ in router id, a loose end
  counting as 0 (`TedGraph.FlagTellsExactly`). With both ends on one node plugging out refuses, and deleting the
  node frees a link that slots still name (`TedGraph.SelfLinkBreaks`). And the subtraction in
  `ted_db_default_cmp_fn` orders two ids exactly when they differ by less than half the range
  (`TedGraph.CompareIdsExactly`).

## Model

| member | source | states |
|---|---|---|
| AvlTrees.AvlTree.constructor | server/Tree/avl.c:566-574 | An initialised tree is valid and empty, with height -1 |
| AvlTrees.AvlTree.RotateLeft | server/Tree/avl.c:174-194 | On any linked tree the rotation keeps child and parent links consistent and the in-order sequence unchanged; it moves the root exactly when it turns there, and says node by node which links and intervals changed |
| AvlTrees.AvlTree.RotateRight | server/Tree/avl.c:196-216 | The mirror image of RotateLeft |
| AvlTrees.AvlTree.SingleLeft | server/Tree/avl.c:319-341 | The single rotation makes a right-heavy subtree balanced below an otherwise untouched tree and gives its exact new height; only the balances of the two nodes turned change |
| AvlTrees.AvlTree.DoubleLeft | server/Tree/avl.c:322-341 | The double rotation with its three cases for the grandchild's balance does the same for an inner-heavy subtree; only three balances change |
| AvlTrees.AvlTree.SingleRight | server/Tree/avl.c:347-369 | The mirror image of SingleLeft |
| AvlTrees.AvlTree.DoubleRight | server/Tree/avl.c:350-369 | The mirror image of DoubleLeft |
| AvlTrees.AvlTree.DoLookup | server/Tree/avl.c:223-250 | Finds the node with the key at the end of a path of child links from the root, within height + 1 comparisons; otherwise yields the one gap of the sorted sequence the key belongs to, the parent whose free child place is that gap, and the deepest node on the path with non-zero balance, or the root |
| AvlTrees.AvlTree.Lookup | server/Tree/avl.c:252-259 | Returns a node with the key if and only if the tree holds one |
| AvlTrees.AvlTree.GetFirst | server/Tree/avl.c:119-124 | The leftmost node of a subtree is the first of its stretch of the sequence |
| AvlTrees.AvlTree.GetLast | server/Tree/avl.c:126-131 | The rightmost node of a subtree is the last of its stretch |
| AvlTrees.AvlTree.Next | server/Tree/avl.c:143-153 | In a tree of any shape, by child and parent links alone: the successor in the in-order sequence, null behind the last node |
| AvlTrees.AvlTree.Prev | server/Tree/avl.c:155-165 | The predecessor in the in-order sequence, so the inverse of Next |
| AvlTrees.AvlTree.Traverse | server/Tree/avl.c:133-153 | Starting at first and following Next visits exactly the sorted sequence of all nodes, each once |
| AvlTrees.AvlTree.Retrace | server/Tree/avl.c:298-308 | The upward loop of insertion corrects every balance between the new leaf and the unbalanced node and none elsewhere; only the unbalanced node may then be out of bounds |
| AvlTrees.AvlTree.Restore | server/Tree/avl.c:310-372 | At most one single or double rotation at the unbalanced node restores balance everywhere; height grows exactly when that node was perfectly balanced |
| AvlTrees.AvlTree.Insert | server/Tree/avl.c:271-374 | A key already present is returned and nothing changes; otherwise exactly the new node is added and the whole invariant holds, height grows exactly when every node on the search path had balance 0, and a balance changes only at or below the deepest node of the path with non-zero balance |
| AvlTrees.AvlTree.Extract | server/Tree/avl.c:377-430 | Splicing out a node, with its successor put in its place when it has two children, takes exactly that node out of the sequence, keeps all links consistent, and leaves one node whose one subtree is lower by 1 |
| AvlTrees.AvlTree.ShrinkLeft | server/Tree/avl.c:456-498 | One turn of the removal loop coming up from the left: either the tree is balanced again with its height as before, or the same holds one level up with the subtree lower by 1 |
| AvlTrees.AvlTree.ShrinkRight | server/Tree/avl.c:499-538 | The mirror image of ShrinkLeft |
| AvlTrees.AvlTree.RetraceShrunk | server/Tree/avl.c:455-540 | The removal loop terminates with every balance correct and height the true height |
| AvlTrees.AvlTree.Remove | server/Tree/avl.c:377-541 | Removing any node of any valid tree leaves a valid tree of exactly the other nodes, its height unchanged or 1 less |
| AvlTrees.AvlTree.InOrderIsStretch | server/Tree/avl.c:119-165 | The in-order sequence of a subtree, defined by recursion on child links, is its stretch of the tree's sequence |
| AvlTrees.AvlTree.HeightIsTrue | server/Tree/avl.c:455-540 | The height every proof goes by is the recursively defined height of the subtree |
| AvlTrees.AvlTree.ValidTree | server/Tree/avl.c:271-541 | What the invariant kept by Insert and Remove amounts to in a reader's terms: the in-order sequence is strictly sorted and holds all nodes, height is the recursive height, every balance is height right minus height left within -1..1, child and parent links agree |
| AvlTrees.AvlTree.SubtreeSize | server/Tree/avl.c:271-541 | A subtree of height h has at least Fib(h + 3) - 1 nodes |
| AvlTrees.AvlTree.MinimumSize | server/Tree/avl.c:271-541 | So has every tree the operations produce |
| MemoryChains.InOrder | server/LinuxMemoryManager/mm.c:407-483 | Along a page's chain every earlier block's header and data end at or before every later header |
| MemoryChains.InBounds | server/LinuxMemoryManager/mm.c:407-483 | Every block of a chain lies between the page header and the end of the page |
| MemoryChains.AllottedOk | server/LinuxMemoryManager/mm.c:407-483 | Taking a free block, with a new free block cut off behind it when its header fits, keeps a chain in order and no two neighbours both free |
| MemoryChains.OpenedOk | server/LinuxMemoryManager/mm.c:618-642 | Marking a block free and giving it the room up to its neighbour keeps the chain in order |
| MemoryChains.JoinedOk | server/LinuxMemoryManager/mm.c:567-576 | Taking the second of two neighbours out of the chain keeps it in order although the first is not enlarged |
| MemoryChains.JoinedLoses | server/LinuxMemoryManager/mm.c:567-576 | After joining, exactly the second header, the second block's recorded size and what was lost behind either block are bytes no recorded size counts |
| MemoryChains.ReleasedOk | server/LinuxMemoryManager/mm.c:606-666 | Freeing a block and joining it with free neighbours on either side keeps the chain in order |
| MemoryChains.ReleasedRoom | server/LinuxMemoryManager/mm.c:606-666 | The size recorded for the block that freeing leaves: the size of the block before if that was free, otherwise the room up to the old next header; its room reaches to the header behind the last block joined |
| MemoryChains.GapExactly | server/LinuxMemoryManager/mm.c:606-666 | The size recorded after freeing is the room up to the next header if and only if neither neighbour was free |
| MemoryChains.ReleasedAlternates | server/LinuxMemoryManager/mm.c:606-666 | Afterwards there are again no two free neighbours |
| MemoryPages.AllotOk | server/LinuxMemoryManager/mm.c:407-483 | An allocation from a free block keeps all pages sound and changes no other page |
| MemoryPages.AllotLive | server/LinuxMemoryManager/mm.c:407-483 | It adds exactly one block of the requested size to the blocks in use, and exactly says how the free ones change |
| MemoryPages.AllotLosesNothing | server/LinuxMemoryManager/mm.c:407-483 | The block's bytes are the part asked for and less than a header, or that part, a header, and the bytes of a new free block right behind it; no other block changes |
| MemoryPages.FreedOk | server/LinuxMemoryManager/mm.c:606-666 | Freeing keeps all pages sound, touches one page only, leaves no two free neighbours there, and takes exactly the one block out of those in use |
| MemoryPages.FreedLive | server/LinuxMemoryManager/mm.c:606-666 | Every other block in use stays in use with its place and size |
| MemoryPages.FreedLeaves | server/LinuxMemoryManager/mm.c:606-666 | Freeing leaves the block before if that was free and else the block itself; a free block behind is gone, and no other block changes |
| MemoryPages.EmptyPage | server/LinuxMemoryManager/mm.c:678-688 | A page without free neighbours consists of one free block if and only if no block on it is in use |
| MemoryPages.FreedPage | server/LinuxMemoryManager/mm.c:606-666 | After a block is freed its page is one free block if and only if it was the last in use there |
| MemoryPages.WastedRoom | server/LinuxMemoryManager/mm.c:485-666 | A sound state and a block whose freeing leaves no free block of 200 bytes, so that a new page would be taken for them, although 248 are free from its header to the next |
| MemoryManager.Family.constructor | server/LinuxMemoryManager/mm.c:274-330 | A new family is valid and has no pages |
| MemoryManager.Family.AvailablePageIndex | server/LinuxMemoryManager/mm.c:75-95 | Finds the page behind which the least unused index is, null when that is 0 |
| MemoryManager.Family.LinkPage | server/LinuxMemoryManager/mm.c:255-270 | The new page gets the least unused index and its place in the doubly linked list, which stays strictly sorted by index |
| MemoryManager.Family.UnlinkPage | server/LinuxMemoryManager/mm.c:587-601 | Takes exactly the one page out of the list, which stays linked and sorted |
| MemoryManager.Family.AllocateVmPage | server/LinuxMemoryManager/mm.c:235-271 | A fresh page of whole system pages with one free block filling it, put on the page list at the least unused index |
| MemoryManager.Family.NewPageAdd | server/LinuxMemoryManager/mm.c:387-401 | Adds that page and its block to the family's state and nothing else |
| MemoryManager.Family.AddFree | server/LinuxMemoryManager/mm.c:357-385 | Puts a block on the free list so that it again lists exactly the free blocks, once each, biggest first |
| MemoryManager.Family.Bind | server/LinuxMemoryManager/mm.h:93-96 | Unchains the upper of two neighbouring blocks in both directions |
| MemoryManager.Family.BindNew | server/LinuxMemoryManager/mm.h:86-91 | Chains a new block in behind the allocated one in both directions |
| MemoryManager.Family.Union | server/LinuxMemoryManager/mm.c:567-576 | Joins two free neighbours in the chain, takes both off the free list, and leaves the first block's size as it was |
| MemoryManager.Family.Split | server/LinuxMemoryManager/mm.c:407-483 | Refuses exactly the requests larger than the block and then changes nothing; otherwise allots from it, hard fragmentation included, with headers, links and free list all agreeing with the result |
| MemoryManager.Family.PagesSuffice | server/LinuxMemoryManager/mm.c:65-73 | req / max(1) + 1 system pages always hold more than req bytes |
| MemoryManager.Family.PagesAreFewest | server/LinuxMemoryManager/mm.c:494 | The number of system pages for n bytes is the one with (pages - 1) * room <= n < pages * room, room being a system page less its headers |
| MemoryManager.Family.HeadIsBiggest | server/LinuxMemoryManager/mm.h:130-141 | The head of the free list is the biggest free block of the family; it is too small exactly when every free block is |
| MemoryManager.Family.AllocateFreeDataBlock | server/LinuxMemoryManager/mm.c:485-525 | Never fails while the kernel supplies pages; takes a new page exactly when no free block is large enough, of the fewest system pages whose room exceeds the request, else allots from the biggest; adds exactly the new block to those in use; the rest is a free block right behind it, or less than a header |
| MemoryManager.Family.Xcalloc | server/LinuxMemoryManager/mm.c:529-556 | A block of units times the structure's size is gained and every block in use keeps its place and size; with the size of a new page and what is left over stated as for AllocateFreeDataBlock |
| MemoryManager.Family.Absorb | server/LinuxMemoryManager/mm.c:618-642 | The freed block takes up the fragmentation behind it, up to the next block or the end of the page |
| MemoryManager.Family.Coalesce | server/LinuxMemoryManager/mm.c:644-656 | Joins the freed block with free neighbours on both sides and yields the one that remains |
| MemoryManager.Family.EmptyExactly | server/LinuxMemoryManager/mm.c:678-688 | mm_is_vm_page_empty holds if and only if the page's chain is one free block |
| MemoryManager.Family.DeletePage | server/LinuxMemoryManager/mm.c:578-604 | Takes exactly that page off the list and out of the state; its block is not on the free list |
| MemoryManager.Family.HostingPage | server/LinuxMemoryManager/mm.h:73-74 | Subtracting a header's offset from its address leads to the page it is on |
| MemoryManager.Family.FreedSays | server/LinuxMemoryManager/mm.c:606-656 | By the headers alone: the freed block takes all the room up to the next header or the end of the page, or goes into the free block before it, which does not grow; a free block behind goes, too |
| MemoryManager.Family.FreeBlocks | server/LinuxMemoryManager/mm.c:606-666 | Takes exactly one block out of those in use; the page goes back to the kernel if and only if that was the last one on it, and otherwise the block that is left, of the size FreedSays gives, is on the free list and no other block changes |
| MemoryManager.Family.Xfree | server/LinuxMemoryManager/mm.c:668-676 | Undoes what Xcalloc gained and keeps the family valid |
| MemoryManager.Family.WithinPage | server/LinuxMemoryManager/mm.c:407-483 | In every valid family each block's header leads back to its page and the block lies within it |
| MemoryManager.Family.BlocksApart | server/LinuxMemoryManager/mm.c:407-666 | No two blocks of the family overlap, header or data |
| MemoryManager.Family.FreeListExact | server/LinuxMemoryManager/mm.c:357-385 | A block is on the free list if and only if it is free; each once, in descending size |
| MemoryManager.Family.PagesInUse | server/LinuxMemoryManager/mm.c:606-688 | A free block has no free neighbour and is never alone on its page |
| WheelTimers.WheelTimer.constructor | server/libtimer/WheelTimer.c:187-215 | A new wheel stands for the empty record at tick 0 |
| WheelTimers.WheelTimer.FirstLater | server/libtimer/WheelTimer.c:10-23 | The first place in a slot list whose cycle is later: where the stable priority insert puts an element |
| WheelTimers.WheelTimer.Insert | server/libtimer/WheelTimer.c:77-92 | An element due at tick d is put into slot d mod size behind all of its cycle, and the slot lists stay sorted by cycle and hold exactly the waiting elements |
| WheelTimers.WheelTimer.DueExactlyThisCycle | server/libtimer/WheelTimer.c:134-183 | The walk over the current slot meets an element of the current cycle exactly when it is due now; at the first other one nothing due is left |
| WheelTimers.WheelTimer.FireOne | server/libtimer/WheelTimer.c:137-177 | Submits the element's callback with its current argument; a repeating one goes to the slot of its next deadline, even if that is this very slot, and a one-shot one leaves the wheel |
| WheelTimers.WheelTimer.WalkFrom | server/libtimer/WheelTimer.c:134-183 | The walk over the slot while its list changes: each element visited is due, visited once, and the walk ends with nothing due left |
| WheelTimers.WheelTimer.FireDue | server/libtimer/WheelTimer.c:131-183 | All elements due at this tick and no others are submitted, once each |
| WheelTimers.WheelTimer.SettleFirst | server/libtimer/WheelTimer.c:64-108 | One request takes effect: a new interval from this tick on, or the end of the element |
| WheelTimers.WheelTimer.Settle | server/libtimer/WheelTimer.c:50-111 | Draining the list puts every request into effect and leaves it empty |
| WheelTimers.WheelTimer.Advance | server/libtimer/WheelTimer.c:113-127 | Tick and cycle fields together advance the absolute slot number by one |
| WheelTimers.WheelTimer.OnTick | server/libtimer/WheelTimer.c:113-185 | One tick of the wheel is one tick of the plain record, for any wheel size, and submits exactly what is due then, once each, with its callback and argument |
| WheelTimers.WheelTimer.SubmittedWith | server/libtimer/WheelTimer.c:131-160 | In any run a tick submits the callback and argument an element was registered with, once, if the element is due then, and nothing for it otherwise |
| WheelTimers.WheelTimer.SubmittedWithGiven | server/libtimer/WheelTimer.c:131-160 | The same after another argument was given |
| WheelTimers.WheelTimer.Request | server/libtimer/WheelTimer.c:218-244 | A request replaces an earlier one for the same element that has not taken effect yet |
| WheelTimers.WheelTimer.Register | server/libtimer/WheelTimer.c:247-280 | Is the event of registering in the plain record, with the interval in milliseconds turned into ticks of the wheel's length in seconds or milliseconds; without a callback nothing happens |
| WheelTimers.WheelTimer.Reschedule | server/libtimer/WheelTimer.c:289-302 | Is the event of rescheduling, with the interval turned into ticks in the same way |
| WheelTimers.WheelTimer.DeRegister | server/libtimer/WheelTimer.c:282-287 | Is the event of de-registering: the argument is cleared at once and deletion requested |
| WheelTimers.WheelTimer.GetAndSetAppData | server/libtimer/WheelTimer.h:64-73 | Exchanges the argument and nothing else |
| WheelTimers.WheelTimer.RemainingTime | server/libtimer/WheelTimer.c:304-319 | The interval still to take effect, or the ticks from now to the element's deadline, in milliseconds |
| Deadlines.TickAt | server/libtimer/WheelTimer.c:50-185 | What one tick does to one element, in every case: request pending or not, due or not, repeating or not |
| Deadlines.StepKeepsOk | server/libtimer/WheelTimer.c:50-302 | Every operation keeps every deadline in the future and every interval positive |
| Deadlines.RunOk | server/libtimer/WheelTimer.c:50-302 | So over every run |
| Deadlines.OtherAt | server/libtimer/WheelTimer.c:218-302 | Operations on one element change nothing for another |
| Deadlines.SubmittedExactly | server/libtimer/WheelTimer.c:113-280 | Registered between ticks t and t+1 with interval k and not touched again: submitted at t+1+k and at no other tick if one-shot, at exactly t+1+k, t+1+2k, ... if recurring |
| Deadlines.LastRequestCounts | server/libtimer/WheelTimer.c:218-302 | Of several operations on an element before a tick only the last takes effect; the old deadline can still strike at that very tick |
| Deadlines.RegisteredArg | server/libtimer/WheelTimer.c:247-280 | A registered element keeps the argument it was registered with until it is given another one or de-registered |
| Deadlines.GivenArg | server/libtimer/WheelTimer.h:64-73 | And an argument given to it later, if its end has not been asked for by then |
| Deadlines.GoneAfterDeRegister | server/libtimer/WheelTimer.c:282-287 | A de-registered element is submitted at most once more, only at the next tick, only if it was due then, with a null argument, and never afterwards |
| Deadlines.SubmittedWhenDue | server/libtimer/WheelTimer.c:304-319 | Left alone, an element is next submitted exactly at its recorded deadline, which is what the remaining time counts down to |
| Ddcp.LastAt | server/Layer5/ddcp/ddcp.c:513-528 | Each recorded entry is the one its originator is looked up by |
| Ddcp.LastAbsent | server/Layer5/ddcp/ddcp.c:513-528 | An originator without entry counts as number -1 |
| Ddcp.LastUpdated | server/Layer5/ddcp/ddcp.c:545-590 | Overwriting one entry changes the recorded number of its originator and of no other |
| Ddcp.NotRecorded | server/Layer5/ddcp/ddcp.c:513-528 | Number -1 means that there is no entry |
| Ddcp.DdcpNode.GetQueryInfo | server/Layer5/ddcp/ddcp.c:513-528 | Finds the originator's entry if and only if one is recorded |
| Ddcp.DdcpNode.UpdateSelfQueryInfo | server/Layer5/ddcp/ddcp.c:530-552 | The node's own number starts at 0 and grows by 1 modulo 2^32; no other changes |
| Ddcp.DdcpNode.ShouldProcess | server/Layer5/ddcp/ddcp.c:554-597 | A query is accepted if and only if the interface runs DDCP and its number is greater than the recorded one, which it then replaces; no other number changes |
| Ddcp.DdcpNode.FloodQueryOut | server/Layer5/ddcp/ddcp.c:60-91 | Sends one copy out of every interface that is up, in layer 3 mode and runs DDCP, in order, the exempted one left out |
| Ddcp.DdcpNode.ProcessQueryMsg | server/Layer5/ddcp/ddcp.c:327-383 | An accepted query is recorded and flooded out of all interfaces but the one it came in by; any other changes nothing and sends nothing |
| Ddcp.DdcpNode.TriggerQuery | server/Layer5/ddcp/ddcp.c:646-711 | The node's next number is taken in any case; without an interval that query goes out of all interfaces, with one nothing is sent and the timer runs, from now on or already |
| Ddcp.DdcpNode.TimerFires | server/Layer5/ddcp/ddcp.c:622-644 | When the timer fires another number is taken and that query goes out of all interfaces |
| Ddcp.FloodIs | server/Layer5/ddcp/ddcp.c:60-91 | A message is in a flood if and only if it is the query on an interface that is up, in layer 3 mode and runs DDCP, other than the exempted one, addressed to that interface's peer |
| Ddcp.FloodNoDup | server/Layer5/ddcp/ddcp.c:74-91 | A flood sends nothing twice, and in the order of the interfaces |
| DdcpFlood.StepKeepsInv | server/Layer5/ddcp/ddcp.c:74-383 | Each step keeps: for every link up and enabled from n to m, the last number m sent on for an originator is at least n's, or the query n sent on is in flight from n to m; no node is ahead of what the originator sent out; and a node's recorded number is the last it sent on, except that its own may be ahead |
| DdcpFlood.RunInv | server/Layer5/ddcp/ddcp.c:74-383 | That holds in every reachable state, over every topology |
| DdcpFlood.DeliveredExactly | server/Layer5/ddcp/ddcp.c:327-383 | In a network that keeps the invariant a query delivered to an interface is taken up if and only if that is in layer 3 mode, runs DDCP, and the query is newer than recorded; it is then sent out of exactly the other interfaces that are up, in layer 3 mode and run DDCP |
| DdcpFlood.RecordedAlongPath | server/Layer5/ddcp/ddcp.c:74-383 | With no query of an originator in flight, the numbers sent on do not fall along a path of enabled links |
| DdcpFlood.FloodReachesAll | server/Layer5/ddcp/ddcp.c:74-383 | So once none is in flight every other node to which a path leads, whose near ends are up and whose ends are all in layer 3 mode and run DDCP, has recorded exactly the last query the originator sent out, which is the originator's own number if and only if it has taken none since |
| DdcpFlood.NumbersInHand | server/Layer5/ddcp/ddcp.c:622-711 | In every reachable state a node's own number exceeds the last it sent out by exactly the number of periodic requests since then |
| DdcpFlood.NumberingLeavesBehind | server/Layer5/ddcp/ddcp.c:668-711 | After a request for periodic queries nothing of the node is in flight and its neighbours have a smaller number than it has itself |
| DdcpFlood.AheadFromTheStart | server/Layer5/ddcp/ddcp.c:668-711 | The shortest run that ends so |
| DdcpFlood.OwnQueryIsKnown | server/Layer5/ddcp/ddcp.c:554-597 | A node's own query coming back always finds an entry at least as new: the assertion made there never fails |
| DdcpFlood.MonotoneUnlessWrapping | server/Layer5/ddcp/ddcp.c:530-552 | A step lowers no recorded number if and only if it takes no number that wraps |
| DdcpFlood.WrappedQueryIsIgnored | server/Layer5/ddcp/ddcp.c:530-597 | After a wrap the neighbour, which has the last number sent out before, drops the query numbered 0 |
| DdcpFlood.RunHist | server/Layer5/ddcp/ddcp.c:74-597 | Over every run: nothing is sent twice, no node takes up a query twice, everything sent belongs to an originated query, and messages in flight plus messages delivered are messages sent |
| DdcpFlood.TakenOnce | server/Layer5/ddcp/ddcp.c:554-597 | Each node processes each (originator, number) at most once |
| DdcpFlood.TransmissionsPerQuery | server/Layer5/ddcp/ddcp.c:74-91 | One originated query is transmitted at most once per interface, so at most as often as the sum of all node degrees |
| DdcpFlood.DegreeSumCounts | server/Layer5/ddcp/ddcp.c:74-91 | The sum of all node degrees is the number of interfaces in the network |
| DdcpFlood.FloodsTerminate | server/Layer5/ddcp/ddcp.c:74-383 | A run has at most that many deliveries per originated query, so every flood ends |
| EventDispatcher.Dispatcher.constructor | server/EventDispatcher/event_dispatcher.c:31-44 | The dispatcher starts idle with an empty queue and no signal sent |
| EventDispatcher.Dispatcher.ScheduleTask | server/EventDispatcher/event_dispatcher.c:46-92 | As one step: a packet-queue task already queued is left alone; any other is put at the end and counted, and the sleeper is signalled exactly when it is idle and has not been signalled yet |
| EventDispatcher.Dispatcher.NextTask | server/EventDispatcher/event_dispatcher.c:151-184 | With no task it goes idle and forgets the signal; otherwise it takes the first one and makes it current |
| EventDispatcher.Dispatcher.TaskDone | server/EventDispatcher/event_dispatcher.c:192-196 | Only the current task is cleared |
| EventDispatcher.PktQueue.Enqueue | server/EventDispatcher/event_dispatcher.c:354-376 | A packet goes to the head of the queue |
| EventDispatcher.PktQueue.GetNextPkt | server/EventDispatcher/event_dispatcher.c:326-351 | Takes the packet at the head, so the latest one, or none |
| DispatcherRuns.HandshakeKept | server/EventDispatcher/event_dispatcher.c:46-199 | Each step keeps: asleep with tasks queued means a signal was sent, and a signal sent while asleep is on its way to the sleeper |
| DispatcherRuns.StepKeepsInv | server/EventDispatcher/event_dispatcher.c:46-376 | Each step of producers and dispatcher, in any interleaving, keeps the whole invariant |
| DispatcherRuns.RunInv | server/EventDispatcher/event_dispatcher.c:46-376 | It holds in every reachable state |
| DispatcherRuns.NoLostWakeUp | server/EventDispatcher/event_dispatcher.c:46-199 | The dispatcher is never asleep with a task queued and no wake-up pending |
| DispatcherRuns.FirstInFirstOut | server/EventDispatcher/event_dispatcher.c:46-199 | With scheduling as one step: tasks run in the order they were scheduled in, no task is queued twice, and the pending count is the queue's length |
| DispatcherRuns.PacketsCovered | server/EventDispatcher/event_dispatcher.c:94-140 | A non-empty packet queue has its task queued, running, or about to be scheduled by some producer; packets in queues plus packets delivered are packets enqueued |
| DispatcherRuns.NeverQueuedTwice | server/EventDispatcher/event_dispatcher.c:57-64 | Whenever a one-shot or background task is put on the queue it is not on it: the assertion made there never fails |
| DispatcherRuns.QuietMeansDone | server/EventDispatcher/event_dispatcher.c:94-199 | Asleep with no wake-up pending and no producer under way: every scheduled task has run, every packet has been delivered, every job that is no packet-queue job has been freed; a creator waits if and only if it created a packet-queue job synchronously, and that job has run; a producer waits only for such a job |
| DispatcherRuns.AfterTurn | server/EventDispatcher/event_dispatcher.c:94-140 | After its turn a background job, or a one-shot job marked for rescheduling, is at the end of the queue again; any other one-shot job is freed; a packet-queue job goes on if and only if packets are left |
| DispatcherRuns.FreedExactly | server/EventDispatcher/event_dispatcher.c:97-121 | Over every run: a job is freed if and only if it is one-shot and has had a turn for which it was not marked, so a background job never is |
| DispatcherRuns.NotForgotten | server/EventDispatcher/event_dispatcher.c:94-140 | Until then it is queued or the dispatcher is at work on it |
| DispatcherRuns.MarkedExactly | server/EventDispatcher/event_dispatcher.c:216-224 | A job is marked if and only if task_schedule_again was called for it and it has had no turn since |
| DispatcherRuns.WaitingExactly | server/EventDispatcher/event_dispatcher.c:76-110 | Someone waits for a job from its synchronous creation until it is freed, and at no other time |
| DispatcherRuns.HeldExactly | server/EventDispatcher/event_dispatcher.c:76-92 | The producers that wait are exactly those that put a packet-queue job created synchronously on the queue themselves |
| DispatcherRuns.AsleepExactly | server/EventDispatcher/event_dispatcher.c:151-172 | The dispatcher sleeps from the moment it finds nothing queued until it is woken |
| DispatcherRuns.WokenExactly | server/EventDispatcher/event_dispatcher.c:68-76 | While the dispatcher sleeps a signal is on its way to it if and only if a task is queued |
| DispatcherRuns.IdleExactly | server/EventDispatcher/event_dispatcher.c:151-184 | It counts as idle before its first task and while it sleeps, and not while it has a task |
| DispatcherRuns.LastInFirstOut | server/EventDispatcher/event_dispatcher.c:326-376 | A packet queue is a stack: a callback that takes a packet gets the one enqueued last |
| DispatcherRuns.ProducersFinish | server/EventDispatcher/event_dispatcher.c:354-376 | From every reachable state the producers half way through an enqueue can all finish it without any step of the dispatcher |
| DispatcherRuns.Progress | server/EventDispatcher/event_dispatcher.c:151-199 | With a task queued the dispatcher, unless stuck, always has a step to take and within five steps of its own takes a task or gets stuck |
| DispatcherRuns.ProducersOnlyAdd | server/EventDispatcher/event_dispatcher.c:46-92 | Producers' steps move no dispatcher and take nothing off the queue |
| DispatcherRuns.HungForever | server/EventDispatcher/event_dispatcher.c:76-92 | From the moment the dispatcher waits for itself no task ever runs |
| DispatcherRuns.SyncBackgroundHangs | server/EventDispatcher/event_dispatcher.c:119-121 | Once a synchronous background job has had a turn the dispatcher waits for itself |
| DispatcherRuns.MarkedSyncHangs | server/EventDispatcher/event_dispatcher.c:101-117 | So it does once a synchronous one-shot job has had a turn after task_schedule_again |
| DispatcherRuns.SyncPktQHangs | server/EventDispatcher/event_dispatcher.c:123-135 | So it does once a synchronous packet-queue job is scheduled by the dispatcher's thread: because packets were left after its turn, or by a callback that enqueued one |
| DispatcherRuns.SyncInCallbackHangs | server/EventDispatcher/event_dispatcher.c:76-92 | So it does once a callback has created a synchronous job |
| DispatcherRuns.HungHasCause | server/EventDispatcher/event_dispatcher.c:76-140 | Over every run the dispatcher waits for itself only after one of these four |
| DispatcherRuns.StuckExactlyWhen | server/EventDispatcher/event_dispatcher.c:76-140 | So, in every state of every run, it waits for itself if and only if one of the four has happened |
| DispatcherRuns.NeverStuck | server/EventDispatcher/event_dispatcher.c:76-140 | In a run whose calls create no background or packet-queue job synchronously, mark no synchronous job for rescheduling and create no synchronous job in a callback, it never does |
| DispatcherRuns.StuckIsReachable | server/EventDispatcher/event_dispatcher.c:76-140 | A run that gets there |
| ScheduleRace.FailsExactly | server/EventDispatcher/event_dispatcher.c:54-59 | Until the task is queued twice: the assertion of a thread that has found it unqueued fails if and only if, since its look, another thread has inserted it and the dispatcher has not taken it |
| ScheduleRace.DoubledExactly | server/EventDispatcher/event_dispatcher.c:59-66 | A thread past its assertion puts the task on the queue a second time if and only if, since the assertion, another thread has inserted it and the dispatcher has not taken it |
| ScheduleRace.NeverDoubled | server/EventDispatcher/event_dispatcher.c:46-66 | If no look falls between another thread's look and insertion, the assertion never fails and the task is never queued twice |
| ScheduleRace.DoubledRun | server/EventDispatcher/event_dispatcher.c:46-66 | A run in which two threads queue the task twice |
| ScheduleRace.FailedRun | server/EventDispatcher/event_dispatcher.c:54-59 | A run in which the assertion fails |
| TedGraph.PluggedIn | server/ted/ted.c:64-70 | An attached half-link's node and slot point back at it and its link's flag is not zero |
| TedGraph.Bidirectional | server/ted/ted.c:98-109 | With both ends attached the XOR of the two ids is the flag |
| TedGraph.PlugInOk | server/ted/ted.c:29-47 | Plugging in keeps slot and owner pointers agreeing both ways, the flag the XOR of the attached ends' ids, and interface indexes unique per node |
| TedGraph.PlugOutOk | server/ted/ted.c:49-62 | So does plugging out |
| TedGraph.AddLinkOk | server/ted/ted.c:111-137 | So does creating a link |
| TedGraph.DropLinkOk | server/ted/ted.c:82-96 | So does freeing a detached link |
| TedGraph.AddNodeOk | server/ted/ted.c:184-199 | So does inserting a node |
| TedGraph.DropNodeOk | server/ted/ted.c:172-182 | So does removing a node with no interface plugged in, and then no half-link names it |
| TedGraph.UnpluggedOk | server/ted/ted.c:82-96 | Unplugging one end and freeing the link if it was the last keeps all this, changes no half-link of another node, and leaves no detached link behind |
| TedGraph.Reattachable | server/ted/ted.c:250-277 | After the far end has been plugged out and renumbered the node has a slot for it |
| TedGraph.Reattached | server/ted/ted.c:250-277 | And plugged in there, the old link joins exactly the two given ends and only the far end changed |
| TedGraph.SeparatedOk | server/ted/ted.c:286-294 | Plugging out two ends of different links and freeing what became detached changes no other half-link and leaves no detached link |
| TedGraph.SeparatedJoinable | server/ted/ted.c:286-299 | And leaves a free slot and a free interface index at both nodes |
| TedGraph.FlagTellsExactly | server/ted/ted.c:64-80 | For any wired link, with whatever ids and owners: ted_is_link_dettached is right if and only if the link is detached or its ends differ in router id, a loose end counting as 0 |
| TedGraph.SelfLinkBreaks | server/ted/ted.c:29-96 | With both ends plugged into one node neither passes for plugged in and the link passes for detached; freeing it leaves slots that name it |
| TedGraph.CompareIdsExactly | server/ted/ted.c:139-146 | The subtraction agrees with the order of two ids if and only if their difference fits 32 bits signed |
| Ted.TedDb.constructor | server/ted/ted.c:148-154 | An empty database is valid |
| Ted.TedDb.IsInterfacePluggedIn | server/ted/ted.c:64-70 | True if and only if the half-link is attached |
| Ted.TedDb.IsLinkDettached | server/ted/ted.c:72-80 | True if and only if both ends are loose |
| Ted.TedDb.LinkIsBidirectional | server/ted/ted.c:98-109 | True if and only if both ends are attached |
| Ted.TedDb.NodeGetEmptySlot | server/ted/ted.c:4-13 | The first empty slot, or -1 if and only if there is none |
| Ted.TedDb.NodeLookupIntf | server/ted/ted.c:201-211 | The node's interface with that index, null if and only if it has none |
| Ted.TedDb.PlugInInterface | server/ted/ted.c:29-47 | Puts the half-link into the first empty slot, sets its owner and slot number and folds the router id into the flag, and nothing else |
| Ted.TedDb.PlugOutInterface | server/ted/ted.c:49-62 | Undoes a plug-in exactly; a half-link not plugged in gives -1 and no change |
| Ted.TedDb.CreateLink | server/ted/ted.c:111-137 | A fresh link with two loose ends and flag 0, everything else unchanged |
| Ted.TedDb.LookupNode | server/ted/ted.c:156-170 | Finds the node with the id if and only if there is one |
| Ted.TedDb.CreateAndInsertNode | server/ted/ted.c:184-199 | A fresh node with empty slots is in the tree, everything else unchanged |
| Ted.TedDb.UnplugAllInterfaces | server/ted/ted.c:82-96 | Every slot of the node is empty, half-links of other nodes are unchanged, and no detached link remains |
| Ted.TedDb.DeleteNode | server/ted/ted.c:172-182 | Afterwards the id is not in the tree, no half-link names the node, no detached link remains, and other nodes and their half-links are unchanged; an unknown id changes nothing |
| Ted.TedDb.LinkGetOtherInterface | server/ted/ted.h:45-51 | The other end of the same link |
| Ted.TedDb.Reattach | server/ted/ted.c:250-277 | Cases 1 and 2 of resurrection, with one end known: its link now joins the two given ends |
| Ted.TedDb.JoinByNewLink | server/ted/ted.c:296-305 | A new link joins the two given ends and no other half-link changes |
| Ted.TedDb.Separate | server/ted/ted.c:286-294 | Both old ends are plugged out and exactly the links detached by it are freed |
| Ted.TedDb.Resurrect | server/ted/ted.c:245-306 | The four cases: both ends known, on one link or on two, one end known, none known |
| Ted.TedDb.ResurrectLink | server/ted/ted.c:213-306 | For distinct non-zero ids and room at both ends the result is a bidirectional link that joins exactly (from, from_ifindex) and (to, to_ifindex), in every case; indexes stay unique per node, no detached link remains, and every other attached half-link is unchanged or, if it sat at one of the two places, unplugged |
| EthernetFrames.TagThenUntag | server/Layer2/layer2.c:357-460 | Untagging a tagged frame gives the original with its check sequence cleared: the original itself if and only if that was zero |
| EthernetFrames.VidReadBack | server/Layer2/layer2.h:92-96 | The VLAN id read from a tag is the one written if and only if it is at most 2047; a larger one reads as no valid id at all |
| EthernetFrames.TagOnWire | server/Layer2/layer2.h:73-120 | A frame is tagged if its field at byte 12, low byte first, is 0x8100; the id is the upper twelve bits of the next field, read as signed |
| EthernetFrames.TagPutsIn | server/Layer2/layer2.c:383-417 | Tagging puts 0x8100 and 16 times the id between addresses and type and clears the last four bytes |
| EthernetFrames.UntagTakesOut | server/Layer2/layer2.c:421-460 | Untagging takes those four bytes out and clears the last four |
| EthernetFrames.RetagChangesId | server/Layer2/layer2.c:366-381 | Tagging a tagged frame changes the twelve bits of the id, keeps the four others, and clears the last four bytes |
| EthernetFrames.TagWellFormed | server/Layer2/layer2.c:357-417 | A tagged frame is well formed and has the same untagged content |
| EthernetFrames.UntagWellFormed | server/Layer2/layer2.c:421-460 | An untagged frame is well formed, carries no tag, and has the same content |
| EthernetFrames.PutTag | server/Layer2/layer2.c:383-417 | Moving the addresses down four bytes and writing the tag yields exactly the tagged frame and touches no other byte of the buffer |
| EthernetFrames.TagPkt | server/Layer2/layer2.c:357-417 | In the buffer, an untagged frame becomes the tagged one four bytes earlier, a tagged one gets the new id in place |
| EthernetFrames.UntagPkt | server/Layer2/layer2.c:421-460 | In the buffer, a tagged frame becomes the untagged one four bytes later, an untagged one stays |
| L2Switch.Interface.SetL2Mode | server/Layer2/layer2.c:62-124 | The mode is set and an IP address given up; the VLANs are cleared if and only if a trunk without an address becomes an access interface, and otherwise kept |
| L2Switch.Interface.SetIpAddress | server/net.c:92-104 | The interface goes to layer 3 and keeps its L2 mode and VLANs |
| L2Switch.Interface.SetVlan | server/Layer2/layer2.c:134-188 | On an access interface the last place in use is overwritten, so that it operates in the VLAN given if and only if it did before or all places behind the first are 0; on a trunk exactly the VLAN given is added, in the first free place, if there is one and it is not there; a layer 3 interface is left alone |
| L2Switch.StaleVlan | server/Layer2/layer2.c:62-188 | A trunk with VLANs 10 and 20 that becomes an access interface by way of an IP address stays in VLAN 10 whatever VLAN is set |
| L2Switch.LetInExactly | server/Layer2/layer2.h:174-291 | A switching port qualifies a frame if and only if, by its bytes, it is untagged or tagged with the port's VLAN on an access port, tagged with one of its VLANs on a trunk, or tagged with id 0 on a trunk with a place not in use; it tags exactly the untagged ones of an access port's VLAN |
| L2Switch.RoutedExactly | server/Layer2/layer2.h:270-291 | A routed interface takes exactly the untagged frames for its own address or with all six bytes 0xff |
| L2Switch.LeavesOnItsVlan | server/Layer2/l2switch.c:160-245 | A tagged frame is sent out of a port if and only if the port carries its VLAN, unchanged on a trunk and untagged on an access port |
| L2Switch.LeavesExactly | server/Layer2/l2switch.c:160-245 | Of a frame that came in as one of VLAN v, at most 2047, a port sends something out if and only if it carries v: the frame as it came in VLAN 0 or from trunk to trunk, otherwise with the tag put in or taken out and the checksum cleared |
| L2Switch.FloodedExactly | server/Layer2/l2switch.c:247-274 | Flooding sends out of every port but the receiving one that lets the frame out, and of no other, each once |
| L2Switch.FloodDelivers | server/Layer2/l2switch.c:247-304 | A frame of VLAN v, at most 2047, with destination 0xff in all bytes or not in the MAC table, is sent out of every other port of v, once, and of no other |
| L2Switch.ArrivalDelivers | server/Layer2/l2switch.c:276-304 | The same by the MAC table as it was before the source address was learnt |
| L2Switch.KnownDelivers | server/Layer2/l2switch.c:276-304 | A frame for an address in the MAC table is sent out of the port listed for it if that carries the frame's VLAN, and otherwise of none |
| L2Switch.LearntDelivers | server/Layer2/l2switch.c:94-158 | A frame whose destination was the source of an earlier frame is sent out of exactly the port that frame was let in by, if that carries its VLAN, as long as no frame from that source was let in elsewhere since |
| L2Switch.KeptApart | server/Layer2/l2switch.c:48-62 | Two addresses are different to the MAC table if and only if they differ at or before the first zero byte |
| L2Switch.Switch.MacTableLookup | server/Layer2/l2switch.c:48-62 | The first entry with the address, if and only if there is one |
| L2Switch.Switch.MacTableEntryAdd | server/Layer2/l2switch.c:94-113 | Afterwards the address maps to the given interface, every address the table keeps apart from it maps as before, and no two entries are for addresses it does not keep apart |
| L2Switch.Switch.PerformMacLearning | server/Layer2/l2switch.c:146-158 | The source address maps to the receiving port, every address the table keeps apart from it as before |
| L2Switch.Switch.SendPktOut | server/Layer2/l2switch.c:160-245 | The egress rule applied to the bytes in the buffer |
| L2Switch.Switch.FloodPktOut | server/Layer2/l2switch.c:247-274 | The loop over the ports sends exactly the flood |
| L2Switch.Switch.ForwardFrame | server/Layer2/l2switch.c:276-304 | Broadcast and unknown destinations are flooded, a known one goes out of its port under the egress rule; what that delivers is FloodDelivers and KnownDelivers |
| L2Switch.Switch.FrameRecv | server/Layer2/layer2.c:501-538 | Ingress qualification, tagging, learning and forwarding together: a frame of VLAN v, at most 2047, for everybody or for an address not in the table, is sent out of exactly the other ports of v, with or without tag as the port has it; a frame not qualified neither teaches nor leaves |
| L2Switch.InsideWellFormed | server/Layer2/layer2.h:174-291 | A qualified frame stays well formed and keeps its untagged content |
| L2Switch.ForwardedOnlyWhereAllowed | server/Layer2/l2switch.c:276-304 | Whatever the MAC table holds, a frame leaves only by ports whose egress rule lets it out |
| VlanNetwork.AcceptedInside | server/Layer2/layer2.h:174-291 | A frame of VLAN v qualified on an access port of v, or tagged v on a trunk, is inside the switch as a frame of v |
| VlanNetwork.NoOtherEntry | server/Layer2/layer2.h:174-291 | A trunk qualifies no frame but those tagged with one of its VLANs, and those tagged with id 0 if and only if it has a place not in use |
| VlanNetwork.ZeroTagged | server/Layer2/l2switch.c:160-245 | A frame tagged with id 0 is sent out of access ports without VLAN and of no other |
| VlanNetwork.SentInPlace | server/Layer2/l2switch.c:160-245 | A frame of v leaves only on ports that carry v, untagged on access ports, tagged v on trunks |
| VlanNetwork.EnterIsolated | server/Layer2/layer2.c:501-538 | A frame entering on an access port, or tagged on a trunk, keeps isolation |
| VlanNetwork.ArriveIsolated | server/Layer2/layer2.c:501-538 | So does any switch receiving a frame, whatever it has learnt |
| VlanNetwork.RunIsolated | server/Layer2/l2switch.c:160-304 | Over every run in a network of switches linked trunk to trunk or access to access in one VLAN, every frame is where its VLAN may be |
| VlanNetwork.Conserved | server/Layer2/l2switch.c:247-304 | An arrival takes exactly one frame out of transit; what the switch sends is in transit or has left, each once |
| VlanNetwork.NoLeak | server/Layer2/l2switch.c:160-304 | A frame that entered as one of VLAN v, on an access port of v or tagged v on a trunk, leaves the network only by access ports of v or trunks carrying v; what an access port gives out is the original if v is 0 and otherwise its untagged bytes with the checksum cleared, so for a frame that came untagged the original if and only if v is 0 or its checksum was clear |
| VlanNetwork.EntersAgain | server/Layer2/l2switch.c:160-245 | What a port of v sends into a link is at the other end a frame of v again, with the same destination |
| VlanNetwork.Delivered | server/Layer2/l2switch.c:247-304 | In any run of the network, once nothing is in transit, a frame of VLAN v, at most 2047, that entered for everybody or for an address that no switch learnt, has left the network by every port of v to which links of v lead |
| VlanNetwork.OutExactly | server/Layer2/l2switch.c:160-245 | A frame that came in untagged on VLAN v is sent out of a port that carries v if and only if v is at most 2047 |
| VlanNetwork.FloodReachesItsVlan | server/Layer2/l2switch.c:247-274 | A flood reaches a port if and only if it is another one that carries the VLAN |
| RouteTable.MaskedIsMasked | server/utils.c:42-64 | Masking is idempotent and yields an address |
| RouteTable.MaskBits | server/utils.c:42-64 | A mask of m leaves the m topmost of the 32 bits of an address as they are and clears all below |
| RouteTable.MaskedMatches | server/Layer3/layer3.c:400-403 | The masked address is the prefix of a route if and only if the two addresses have the same topmost bits, as many as the mask says |
| AddressText.DecimalReads | server/utils.c:57-63 | Read as a decimal number, the digits written for a number denote it |
| AddressText.TextOfOctets | server/utils.c:57-63 | The text of an address is its four bytes in decimal with dots between, most significant first |
| AddressText.TextPrefix | server/Layer3/layer3.c:400-413 | The text of one address begins that of another if and only if they are equal, or agree up to the last number and the digits of the one begin those of the other |
| AddressText.TextSame | server/Layer3/layer3.c:511-519 | Two addresses have the same text if and only if they are equal |
| RouteTable.TextMatchesExactly | server/Layer3/layer3.c:400-413 | The comparison accepts exactly the routes whose prefix agrees with the address in the bits of the mask, and those that overlap: same up to the last number, with more digits there |
| RouteTable.RightExactly | server/Layer3/layer3.c:381-416 | The look-up returns the route of greatest mask among those whose prefix has the topmost bits of the address, or none if there is none, if and only if each overlapping route is shadowed by a matching one that is longer, or as long and in front of it |
| RouteTable.RightInAnyOrder | server/Layer3/layer3.c:381-416 | Where no route overlaps the answer is right and the same for every order of the list |
| RouteTable.OrderMattersExactly | server/Layer3/layer3.c:381-416 | Some other order of the list gives another answer if and only if two of the longest accepted routes are equally long |
| RouteTable.WrongHost | server/Layer3/layer3.c:381-416 | With routes to 10.1.1.10/32 and 10.1.1.1/32 in this order a look-up of 10.1.1.1 finds the former, in the other order the latter |
| RouteTable.DefaultRoute | server/Layer3/layer3.c:381-416 | A valid route of mask 0 matches every address |
| RouteTable.OneLongestMatch | server/Layer3/layer3.c:381-416 | With routes unique per prefix and mask, at most one of those that match an address is longest, in whatever order they are listed; what the look-up makes of that is RightExactly |
| RouteTable.NoMatchAnyOrder | server/Layer3/layer3.c:381-416 | Nor does the order decide whether there is one |
| RouteTable.InsertNexthop | server/Layer3/layer3.c:527-560 | Refused if and only if all places are taken; otherwise the next hop is put behind those of smaller or equal interface index and the rest move up |
| RouteTable.InsertedLast | server/Layer3/layer3.c:527-560 | With all indexes 0, as rt_table_add_route leaves them, the sorted insertion appends the next hop |
| RouteTable.RtTable.LookupLpm | server/Layer3/layer3.c:381-416 | The first of the longest routes whose text begins with that of the masked address, else the default route, else none; this is the longest match on the bits of the address if and only if each overlapping route is shadowed |
| RouteTable.RtTable.Lookup | server/Layer3/layer3.c:497-522 | The route of exactly that prefix and mask, if and only if there is one |
| RouteTable.RtTable.AddRoute | server/Layer3/layer3.c:563-631 | A new prefix and mask is added in front with its one next hop; a known one only gains the next hop, with interface index 0; every other route is unchanged, prefixes stay unique, and no next hop is in a route twice |
| RouteTable.RtTable.NewRoute | server/Layer3/layer3.c:578-629 | A new route has the masked prefix, the mask, and either the one next hop or, without one, is direct |
| RouteTable.RtTable.ExtendRoute | server/Layer3/layer3.c:587-622 | A next hop already there, or no room left, leaves the route as it is |
| RouteTable.RtTable.FindHop | server/Layer3/layer3.c:583-596 | The loop finds the next hop if and only if the route has one with that gateway and interface, and otherwise runs to the end exactly when all places are taken |
| RouteTable.RtTable.ExtendedHops | server/Layer3/layer3.c:583-622 | Afterwards the gateway and interface are among the next hops, unless all places were taken; all others stay, and none is there twice |
| GlThreads.AddNext | server/gluethread/glthread.c:44-58 | For any two nodes, free or not: exactly which of their links and of the old successor's become what; a node put behind one without successor keeps its own |
| GlThreads.Remove | server/gluethread/glthread.c:77-98 | The element's neighbours are linked to each other and the element to nothing |
| GlThreads.PutBehind | server/gluethread/glthread.c:44-58 | On a whole list: the element is inserted at exactly that place |
| GlThreads.TakeOut | server/gluethread/glthread.c:77-98 | On a whole list: exactly that element is taken out |
| GlThreads.AddLast | server/gluethread/glthread.c:110-124 | The element is appended to the list |
| GlThreads.AddLastAgain | server/gluethread/glthread.c:110-124 | Appending an element that is on the list already leaves a list without end |
| GlThreads.LoopsForever | server/gluethread/glthread.c:110-124 | On such a list the loop of glthread_add_last never ends |
| GlThreads.DequeueFirst | server/gluethread/glthread.c:189-198 | Takes the first element off, or null from an empty list |
| GlThreads.PriorityInsert | server/gluethread/glthread.c:139-187 | The element goes to the first place where all before it are not greater and the next one is greater |
| GlThreads.PriorityInsertSorts | server/gluethread/glthread.c:139-187 | So a sorted list stays sorted and equal elements keep their order of arrival |

## Left out

General:

- Addresses of memory, sockets, the kernel's page calls and POSIX timers are outside the model: a page is
  a fresh object at an address the caller picks where nothing else lies, a tick is a call of `OnTick`.
- Integers are unbounded except where a theorem is about their width: DDCP sequence numbers, the VLAN id
  field, the XOR flag, the comparison of router ids. Overflow of wheel ticks, of 32-bit block sizes and of
  counters is not modelled.
- Allocation does not fail (`calloc`, `mmap`).
- Inside the other components the intrusive lists are sequences; that the pointer operations realise
  insertion, removal and the stable priority insert on sequences is proved in `GlThreads`.

AVL tree:

- The balance is a field of its own and the parent link another; the variant that packs both into one word
  is not modelled. `cmp_fn` is the order of integer keys. `avltree_replace` is left out.

Block allocator:

- One page family of one structure; the table of families and its own pages, the usage statistics
  and the zeroing of memory are left out. Header sizes are those of a 64-bit machine (32 and 48 bytes).
- The address space is a map from page addresses to pages. A new block header is created complete before
  it is linked in.

Timing wheel:

- `N_scheduled`, the debug prints and the printing and resetting of a wheel are left out. The preconditions
  on intervals are the assertions of the original: a positive multiple of the tick length.
- WheelTimers.WheelTimer.RemainingTime: says nothing of an element that neither waits in a slot nor has an
  interval to take effect, because its cycle and slot fields are those of a submission that is over.

DDCP:

- Interfaces and links do not change during a run, and `t.intfs` says which are up and enabled. Messages
  are delivered at most once, in any order; a theorem that needs them all delivered says so. Replies, the
  reply database, the TLVs inside a query and ports in L2 mode are left out. When the timer of a periodic
  query fires is left open: in a run a node may send its next query, or request periodic ones, at any moment.

Event dispatcher:

- EventDispatcher.Dispatcher.ScheduleTask: one atomic step, in the class and in the runs of `DispatcherRuns`, although
  the test whether a packet-queue task is already queued comes before the lock is taken; the producer's own look
  at the task before calling it is a separate step. What the gap between test and lock allows is in `ScheduleRace`.
- No two tasks share a packet queue. Callbacks return. Waiting threads other than the dispatcher wake up only
  when signalled. Packet sizes and `task_cancel_job` are left out.

Traffic-engineering database:

- The tree of nodes is a map from router ids, which the AVL tree provides where the comparison is an order.
  Addresses, masks, costs, `ted_create_or_update_node` and the display are left out.
- Ted.TedDb.ResurrectLink: requires that each node has a free slot, or gets one when an old end is plugged out,
  because the original asserts a slot when it plugs in; distinct non-zero ids for the reason given above.

VLAN switching:

- An interface's mode is a value; the IP side of an interface, ARP and the delivery to layer 3 are left out.
  An interface that has an IP address and an L2 mode at once, as `node_set_intf_ip_address` leaves a switching one,
  is no mode of the model: it qualifies frames by its L2 mode, and a flood that comes to it runs into the assertion
  in `l2_switch_send_pkt_out`. In a run of the network no frame tagged with id 0 enters on a trunk; where such a
  frame goes is `VlanNetwork.ZeroTagged`. Configuration does not change while frames are under way. Ids are below
  4096, as in the standard. Double-tagged frames are not well formed here. MAC addresses are compared up to the
  first zero byte, as the string comparison of the original does.

Route table:

- The text stored with a route is the one inet_ntop writes; the original copies a host address as it was given.
- RouteTable.MaskedIsMasked: a mask of 0 clears all bits, although the original then shifts a 32-bit value by 32.
- RouteTable.RtTable.AddRoute: excludes the call without gateway for a known route that has a next hop, where the
  original would compare with a null pointer.
- Notifications, the time of installation, deletion and clearing of routes are left out.

Not modelled at all: user interface and output (the CLI, logging, the Qt client); code with little state of its
own (ARP, the netfilter chains, the FSM library); protocols the repository holds only in part (neighbourship,
IS-IS, STP, layer 4, ACLs); and the bit arrays, whose macros mix masks with positions.
