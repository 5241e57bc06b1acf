# A verified model of mpatrol

mpatrol is a debugging `malloc` library with a set of analysis tools. It
surrounds every allocation with overflow buffers, keeps freed blocks for a
while, fills memory with known bytes, and can say later which byte was written
that should not have been. This project models the code that has to be right
for such a report to mean anything, and proves what the code relies on. It is
written in Dafny 4.11; `dafny verify dfyconfig.toml` checks all of it.

| files | part of mpatrol |
|---|---|
| `Rounding`, `BitTricks`, `Memory` | rounding to powers of two (`src/utils.c`), its bit masks, and the word-at-a-time byte routines (`src/memory.c`) |
| `Blocks`, `Heap`, `Resizing`, `Canonical`, `Runs`, `Effects` | the allocator's state as a value: an address-ordered list of blocks, the queue of freed blocks, and memory; every step of it; runs of steps |
| `SearchTrees`, `Allocator` | `src/alloc.c` as a class that updates the list, the queue, three search trees and three totals in place |
| `RedBlack`, `TreeNodes` | the red-black trees of `src/tree.c`, first as values, then as nodes that point at their parents and children: insertion, removal, and the searches |
| `AllocaStack`, `MemoryInfo` | `src/info.c`: malloc, realloc, free, the alloca stack, `__mp_checkinfo` and `__mp_checkrange`, on top of the allocator |
| `Mutex` | the recursive mutex of `src/mutex.c` and the entry counter of `src/inter.c`, as interleaved steps of any number of threads |
| `CallSites`, `ProfileCounts`, `ByteOrder`, `ProfileFile`, `EdgeGraph`, `CallGraph`, `ProfileGraph` | the profiler: interned call stacks, counters, the output file, its reader on a machine of either byte order, the call graph, and the way from what was recorded to what is drawn |
| `Slots`, `TraceSim` | slot tables and the translation of a trace into a simulation program |
| `Options`, `LeakTable`, `Glob`, `LinkedList` | the options string, the leak table, the pattern matcher, and the linked lists |

Code that changes things in place is a class or a method with loops; what it
does is stated with functions on values, and the theorems are about those
functions. `AllocHead.View()` is the value that a class of the allocator stands
for, and `Heap.Sound` is the central invariant: the blocks tile exactly the
memory obtained from the heap manager, no two free blocks border on each
other, the queue holds every freed block once, and every byte that
`__mp_checkinfo` looks at holds its fill byte. The allocator's search trees are
sets of entries there; `TreeNodes` shows what insertion, removal and the searches
of the linked trees do to such sets. What the outside world answers, such as the
heap manager or a table of slots, is an input of each call.

## What turned out not to hold

* **Alignment padding of fresh memory.** `__mp_getalloc` searches its free
  blocks for the request, both buffers and `a - 1` bytes of padding
  (`src/alloc.c:350`), but asks the heap manager for the request and the
  buffers only (`src/alloc.c:362`). If rounding to pages adds too little, the
  subtraction in `splitnode` (`src/alloc.c:205`) wraps around. `CarveSoundIff`
  says exactly when splitting a block keeps the heap sound, `NoSlackBreaks`
  that every request without `Slack` breaks an empty heap, `TightRequest` that
  a request that fills whole pages has slack if and only if the alignment
  divides the buffer size, and `NoSlackExample` follows one to the broken heap:
  4080 bytes aligned to 16 with buffers of 8. With slack the claim holds (`SlackSuffices`), in
  particular if the alignment divides the buffer size or in page mode. A run of
  steps keeps the heap sound throughout if and only if every step that splits a
  block has the room (`RunSoundIff`).
* **Buffer sizes.** `__mp_poweroftwo` shifts an `int` (`src/utils.c:94`).
  `ShiftRoundsIff` says for an `int` and an `unsigned long` of any width for
  which arguments that rounds up: the powers of two, and what is below a quarter
  of the range of the `int`, or half of it where the two are of the same width.
  With 32 and 64 bits 1.5 times 2 to the power of 30 is rounded to a number that
  is no power of two (`ShiftExample`). The allocator gets the least buffer size
  that will do exactly for such sizes (`BufferSizeIff`).
* **Option values.** What `addoption` prints is not always what
  `__mp_parseoptions` reads back: only a space makes it quote a value. A list of
  options comes back if and only if no value contains a quote, and every value
  with white space contains a space (`RoundTripIff`, `TabExample`). Behind
  options that the variable held before, those that were added come back under
  the same condition if and only if what was there does not end in quotes that
  are still open (`VariableComesBack`): behind `A="b` the option `LOGFILE=c` is
  lost (`OpenQuoteExample`). What an earlier run has printed never ends so
  (`EarlierRunComesBack`). The earlier value is copied without a test of its
  length, so that it is written behind the buffer if and only if name, value and
  terminator are longer than the buffer (`OptionBuffer.Inherit`).
* **Patterns.** Inside a character class `__mp_match` looks at the character
  behind a member before it compares the member with the terminator
  (`src/getopt.c:348-358`). A class that is not closed, or that ends with a
  range without an upper end, therefore makes it read behind the pattern, and
  the answer is up to what is there: `[a` with `-z]` behind its terminator
  matches `a` (`OpenClassExample`, `OpenRangeExample`). `StaysInside` says for
  every string, every pattern and everything behind the pattern that this
  happens if and only if the match gets as far as an open class with a character
  left to compare, and that the answer is otherwise whether the string is in the
  language of the pattern. Whenever it happens some tail makes the answer 0, and
  some tail makes it 1 if and only if the class has not ruled out the characters
  it is compared with (`BehindDecides`), which a negated class does once it has
  found the character (`RuledOutExample`). Ranges compare signed characters
  (`SignedRangeExample`).
* **Simulated traces.** An allocation of no bytes is written as a line that the
  simulation program takes for a free (`EmptyExample`). The emitted program runs
  if and only if the trace has no such allocation, and no reallocation to no
  bytes where the library's `realloc` would then free the block
  (`Tracer.ReadTrace`).

## Model

| member | source | states |
|---|---|---|
| `Rounding.RoundUpLeast` | src/utils.c:117-120 | no multiple of the unit at or above the size is smaller than the rounded size |
| `BitTricks.ShiftRoundsIff` | src/utils.c:90-95 | the shift of an int gives the least power of two that is not below the argument if and only if the argument is small enough, and else is not defined, 0, or no power of two |
| `BitTricks.ShiftExample` | src/utils.c:94 | three quarters of the sign bit of an int is rounded to no power of two |
| `BitTricks.MaskDown` | src/utils.c:104-107 | the mask of the C code rounds down to the multiple of a power of two that remainders give |
| `BitTricks.MaskUp` | src/utils.c:117-120 | for words of any size, the subtraction, mask and sum of the C code round up, also for 0, where the subtraction wraps around |
| `BitTricks.OneBit` | src/utils.c:78-81 | the test with n - 1 accepts exactly the powers of two |
| `Memory.MemCheck` | src/memory.c:902-963 | the word-at-a-time scan returns the first byte that differs from the fill byte, and nothing if and only if there is none |
| `Memory.MemCompare` | src/memory.c:971-1039 | for every pair of addresses, returns the first position at which two blocks differ, and nothing if and only if they are equal |
| `Memory.MemFind` | src/memory.c:1046-1059 | returns the first occurrence of one block in another; nothing if there is none or the block sought is empty |
| `Memory.MemSet` | src/memory.c:1066-1109 | exactly the given bytes change, whatever their alignment |
| `Memory.MemCopy` | src/memory.c:1116-1222 | the destination holds what the source held before and nothing else changes, for every alignment, length and overlap |
| `Heap.CoalesceLaid` | src/alloc.c:274-316 | merging a free block with its neighbours keeps the tiling and the fill bytes, and leaves no two bordering free blocks if only this block had any |
| `Heap.CarvedExtent` | src/alloc.c:176-252 | the extent recomputed from the address and size of a new block by rounding is the extent that was carved, in page mode with either placement and without pages; the address is aligned, and placement at the upper end leaves less than the alignment behind the block |
| `Heap.CarvedTiles` | src/alloc.c:164-216 | the parts of a split free block cover its addresses without a gap |
| `Heap.CarvedClean` | src/alloc.c:217-264 | every part of a split block holds the bytes that `__mp_checkinfo` expects, and nothing outside the block changes |
| `Heap.CarveSoundIff` | src/alloc.c:152-268 | splitting a free block keeps the heap sound if and only if the block has room for the request, its padding and its buffers |
| `Heap.GrowSound` | src/alloc.c:367-395 | fresh memory anywhere outside the heap keeps it sound, after merging |
| `Heap.ReleaseSound` | src/alloc.c:638-673 | freeing a live block keeps the heap sound |
| `Heap.RecycleSound` | src/alloc.c:681-744 | recycling frees the oldest block of the queue and keeps the heap sound |
| `Heap.RetireSound` | src/alloc.c:600-637 | keeping a freed block keeps the heap sound |
| `Heap.FreeBlockSound` | src/alloc.c:566-674 | freeing with or without keeping, with or without recycling first, keeps the heap sound |
| `Heap.FreeBlockQueue` | src/alloc.c:577-578 | keeping a freed block appends its address to the queue and drops the oldest if and only if the queue was full |
| `Heap.QueueHoldsNewest` | src/alloc.c:572-578 | pushing any sequence of addresses leaves exactly the newest ones up to the limit, in order |
| `Heap.DrainSound` | src/option.c:1385-1392 | lowering the limit recycles the oldest blocks, and no more than it has to |
| `Heap.SettingsSound` | src/option.c:1343-1353 | changing the default alignment or the allocation byte between two calls keeps the heap sound |
| `Resizing.ResizedExtent` | src/alloc.c:429-432 | after resizing in place the recomputed extent is the one the block was given |
| `Resizing.CanResizeTest` | src/alloc.c:437-460 | the tests of the C code decide exactly whether the block and its free neighbour have the room |
| `Resizing.ResizedClean` | src/alloc.c:533-555 | resizing in place leaves every fill byte right, changes nothing outside and keeps the contents up to the smaller size |
| `Resizing.ResizeSound` | src/alloc.c:409-559 | resizing in place keeps the heap sound |
| `RedBlack.DepthIsLogarithmic` | src/tree.c:111-114 | a tree of n nodes is no deeper than twice the logarithm of n + 1 |
| `RedBlack.Turned` | src/tree.c:61-109 | a rotation keeps the order, and the other rotation undoes it |
| `RedBlack.FitsWhole` | src/tree.c:145-184 | the whole tree is balanced, with a black root and no red child of a red node, if and only if a part of it fits the place where it is |
| `RedBlack.RecolouredRises` | src/tree.c:147-153 | with a red uncle the fault moves up two levels |
| `RedBlack.RaisedRises` | src/tree.c:161-163 | with a black uncle it is gone after at most two rotations |
| `RedBlack.LeavingFits` | src/tree.c:203-233 | taking out a node leaves the tree balanced if its place was red, and else one black node short below one place |
| `RedBlack.PassedFits` | src/tree.c:246-250 | with a black brother that has no red child the shortage moves up a level |
| `RedBlack.SettledFits` | src/tree.c:260-263 | with a red child on the far side of the brother it is gone |
| `TreeNodes.Side` | src/tree.c:237 | the test for a left child is right for every place with a node, or with a node on the other side, and wrong for a right leaf beside a left leaf |
| `TreeNodes.TreeRoot.constructor` | src/tree.c:50-58 | an empty tree |
| `TreeNodes.TreeRoot.RotateLeft` | src/tree.c:64-83 | the stores turn the node's right child above it, and leave every other link alone |
| `TreeNodes.TreeRoot.RotateRight` | src/tree.c:90-109 | the same the other way round |
| `TreeNodes.TreeRoot.Insert` | src/tree.c:116-186 | the node is in its place in the order, behind those with the same key; the links form a tree, its colours are right, and its size is counted |
| `TreeNodes.TreeRoot.Remove` | src/tree.c:194-301 | exactly that node is gone and the order of the others stays; the links form a tree, its colours are right, and its size is counted |
| `TreeNodes.TreeRoot.Search` | src/tree.c:310-320 | a node with the key, or nothing if there is none |
| `TreeNodes.TreeRoot.SearchLower` | src/tree.c:329-350 | a node with the greatest key that is not above the one sought, or nothing if there is none, also with equal keys |
| `TreeNodes.TreeRoot.SearchHigher` | src/tree.c:356-377 | a node with the least key that is not below the one sought, or nothing if there is none |
| `TreeNodes.TreeRoot.Minimum` | src/tree.c:382-393 | the first node of a subtree |
| `TreeNodes.TreeRoot.Maximum` | src/tree.c:399-410 | the last node of a subtree |
| `TreeNodes.TreeRoot.Predecessor` | src/tree.c:417-433 | the node before a node in the order of the whole tree |
| `TreeNodes.TreeRoot.Successor` | src/tree.c:441-457 | the node behind a node in the order of the whole tree |
| `TreeNodes.TreeRoot.Traverse` | src/profile.c:424-425 | going from the first node from successor to successor visits every node of the tree once, in order |
| `Allocator.AlignOfDivides` | src/alloc.c:334-339 | the effective alignment is a power of two that divides the page size |
| `Blocks.BufferSizeLeast` | src/alloc.c:74-84 | for a size that is small enough to be rounded up, the buffers are at least as large as the user asks for, and the smallest power of two that is, of whole pages in page mode |
| `Blocks.BufferSizeIff` | src/alloc.c:74-84 | for a larger size they are not |
| `Blocks.NewConfigOk` | src/alloc.c:74-84 | the settings are valid for a size that is small enough to be rounded up |
| `Allocator.AllocHead.constructor` | src/alloc.c:53-88 | an empty allocator is sound |
| `Allocator.AllocHead.MergeNode` | src/alloc.c:274-316 | refines `Coalesced`; the free tree follows |
| `Allocator.AllocHead.SplitNode` | src/alloc.c:152-268 | refines `Carve` with the trees and totals, also where the block has no room and the size of the right part wraps around; without slots for both parts nothing changes |
| `Allocator.AllocHead.Place` | src/alloc.c:377-384 | the walk from the nearest used block finds the place of fresh memory in address order |
| `Allocator.AllocHead.GetAlloc` | src/alloc.c:323-402 | the best-fitting free block is used, and the heap manager asked only if none fits; the request is met if and only if there is a block and there are slots; the heap is sound afterwards if and only if the block had room, which slack makes sure of; without room the size of the right part has wrapped around, and the buffer behind the block may be written outside memory |
| `Allocator.AllocHead.GetAllocIfRoom` | src/alloc.c:323-402 | the same for the layers above, which stop where there is no room, so that the heap is always sound |
| `Allocator.AllocHead.FreeAlloc` | src/alloc.c:566-674 | refines `FreeBlock`; trees, totals and queue follow |
| `Allocator.AllocHead.RecycleFreed` | src/alloc.c:681-744 | refines `Recycle`; trees, totals and queue follow |
| `Allocator.AllocHead.ResizeAlloc` | src/alloc.c:409-559 | succeeds if and only if there is room, not in page mode with upper placement, and a slot if one is needed; then refines `Resize`, else changes nothing |
| `Allocator.AllocHead.FindAlloc` | src/alloc.c:789-801 | the one live block whose payload contains the address, or none if there is none |
| `Allocator.AllocHead.FindFreed` | src/alloc.c:809-821 | the one freed block whose payload contains the address, or none if there is none |
| `Allocator.AllocHead.FindNode` | src/alloc.c:830-876 | the walk that starts from the trees finds the first block in the whole list whose extent meets the range |
| `Allocator.AllocHead.SetFreedLimit` | src/option.c:1385-1392 | the queue keeps the newest blocks up to the new limit |
| `Allocator.SlackSuffices` | src/alloc.c:357-395 | with slack, fresh memory has room for the request however it was merged and aligned |
| `Allocator.NoSlackBreaks` | src/alloc.c:357-402 | without slack, a request on an empty heap leaves a heap that is not sound |
| `Allocator.AlignedBufferHasSlack` | src/alloc.c:343-362 | if the alignment divides the buffer size there is slack |
| `Allocator.TightRequest` | src/alloc.c:343-362 | a request that fills whole pages has slack if and only if the alignment divides the buffer size |
| `Allocator.NoSlackExample` | src/alloc.c:343-402 | 4080 bytes aligned to 16 with buffers of 8, on an empty heap: the page that the heap manager may hand out is a sound heap, and splitting it for the request leaves one that is not |
| `Runs.StepSound` | src/alloc.c:152-744 | a step of the allocator, or a write to a live payload, keeps the heap sound if and only if it does not split a block without the room |
| `Runs.RunSound` | src/alloc.c:391-394 | after every run of such steps the list tiles the memory obtained, no two free blocks border, and `__mp_checkinfo` would find nothing |
| `Runs.RunSoundIff` | src/alloc.c:152-744 | no other run keeps the heap sound throughout |
| `Runs.StartSound` | src/alloc.c:53-88 | every run starts from a sound heap |
| `Runs.RunKeeps` | src/alloc.c:152-744 | over a whole run of such steps, no step that does not name a live block moves it, frees it or changes its contents |
| `Runs.QueueOfRun` | src/alloc.c:572-578 | over a run of any steps that leave the limit alone, the queue holds exactly the newest of the blocks that were freed and kept, up to the limit, in the order in which they were freed |
| `Runs.NeverOverlap` | src/alloc.c:374-376 | no address belongs to two blocks, buffers included |
| `Canonical.ListIsCanonical` | src/alloc.c:391-394 | the free blocks are determined by the used blocks and the memory obtained |
| `Canonical.FreeRestores` | src/alloc.c:583-588 | freeing a block restores the list of before it was allocated, whatever happened in between to other blocks that are gone again |
| `Canonical.CarveReleaseRestores` | src/alloc.c:566-674 | allocating and freeing restores the list, and outside page mode every byte of memory |
| `Canonical.ResizedFreeRestores` | src/alloc.c:409-559 | the same after any series of resizes in place |
| `Effects.FreeEffect` | src/alloc.c:566-674 | freeing takes one block from the live ones and touches the contents of no other |
| `Effects.ResizeEffect` | src/alloc.c:409-559 | resizing replaces one live block and touches the contents of no other |
| `Effects.PayloadWrite` | src/info.c:1119-1243 | a write inside a live payload spoils nothing that is checked |
| `AllocaStack.PushStack` | src/info.c:455-482 | a new block of the alloca family keeps one entry for each such live block |
| `AllocaStack.PopStack` | src/info.c:898-919 | so does taking out the entry of a block that is freed |
| `MemoryInfo.AlignmentHonoured` | src/info.c:338-387 | a valid alignment is used as it is, and valloc and pvalloc align to pages |
| `MemoryInfo.CheckBlock` | src/info.c:1126-1241 | reports nothing if and only if every byte of the block that should hold a fill byte does; what it reports is a byte that differs from its fill byte, and everything that is checked before it is right |
| `MemoryInfo.InfoHead.GetMemory` | src/info.c:307-493 | a new block of the wanted size, aligned and filled, on the alloca stack if and only if it belongs there; all other contents stay; it fails exactly if the limit, an injected failure, slots or memory stand in its way |
| `MemoryInfo.InfoHead.Diagnose` | src/info.c:776-845 | which complaint a pointer draws, for every pointer and every complaint, in terms of the blocks that contain it |
| `MemoryInfo.InfoHead.FreeMemory` | src/info.c:764-927 | frees exactly the blocks that may be freed by the given function; otherwise nothing changes |
| `MemoryInfo.InfoHead.ResizeMemory` | src/info.c:501-756 | on success the block has its old contents up to the smaller size and a filled tail, and is aligned if it has moved; on failure it stays live with its contents, unless reallocf or a size of zero frees it; when it succeeds, and when the address stays, is stated exactly |
| `MemoryInfo.InfoHead.ResizeLive` | src/info.c:583-746 | the same for a live block and a size above zero |
| `MemoryInfo.Relocate` | src/info.c:622-702 | the three ways to resize, each with the contents carried over, the new address aligned, and the freed queue updated |
| `MemoryInfo.InfoHead.SetMark` | src/inter.c:1662-1693 | marks exactly the unmarked live blocks outside the alloca family |
| `MemoryInfo.InfoHead.CheckAlloca` | src/inter.c:296-386 | frees exactly the alloca blocks that are out of scope; a forced check frees all of them and empties the stack; while the library is not entered for the first time nothing happens |
| `MemoryInfo.InfoHead.CheckInfo` | src/info.c:1119-1243 | reports nothing if and only if every byte it is responsible for holds its fill byte, and else the first wrong byte in the order of the checks; reports nothing in any state the library can reach |
| `MemoryInfo.InfoHead.CheckRange` | src/info.c:1252-1324 | accepts exactly the ranges that meet no block or lie within one live payload, or with overflow allowed those whose first block is live |
| `MemoryInfo.InfoHead.SetNoFree` | src/option.c:1385-1392 | gives up freed blocks only |
| `MemoryInfo.FirstOnly` | src/info.c:1252-1324 | a payload that encloses the range is the only block that meets it |
| `Mutex.StepInv` | src/mutex.c:241-299 | every step of every thread keeps the invariant |
| `Mutex.RunInv` | src/mutex.c:241-299 | the invariant holds in every state of every interleaving |
| `Mutex.MutualExclusion` | src/mutex.c:241-270 | at most one thread is inside, and it is the recorded owner |
| `Mutex.CountIsDepth` | src/inter.c:231-263 | the mutex count and the library's recursion counter are the nesting depth of the thread that is inside |
| `Mutex.RestIsClean` | src/mutex.c:278-299 | with nobody inside, both locks are free and both counters zero |
| `Mutex.StrayUnlock` | src/mutex.c:278-299 | an unlock by a thread that is not inside changes nothing but the guard, even for the thread with identifier 0 |
| `Mutex.OwnUnlock` | src/mutex.c:278-299 | an unlock that belongs to a lock passes its test |
| `Mutex.LateStore` | src/mutex.c:291-295 | when owner is cleared after the lock has been freed, no other thread has recorded itself yet |
| `Mutex.GuardHolderMoves` | src/mutex.c:241-270 | no thread waits for the mutex while it holds the guard |
| `Mutex.NoDeadlock` | src/mutex.c:241-299 | while a call is under way some thread can take a step, or is running inside |
| `CallSites.AppendInterned` | src/profile.c:231-237 | a new node on top of its caller's keeps all stacks different and callers before callees |
| `CallSites.Profile.Find` | src/profile.c:205-222 | finds the node that spells the stack, if and only if there is one |
| `CallSites.Profile.GetCallSite` | src/profile.c:200-238 | the node's callers spell the stack; stacks are never stored twice; it fails exactly if there are fewer slots than nodes missing, and then changes nothing |
| `ProfileCounts.BinsAdd` | src/profile.c:278-284 | recording a size adds one to the counts and the size to the bytes that the bins stand for |
| `ProfileCounts.ReadTotals` | src/mprof.c:487-501 | the reader's totals are the sums that the writer kept |
| `ProfileCounts.Profiler.Record` | src/profile.c:246-348 | the statistics of one stack change by one event and those of all others stay; the sum of each counter over all stacks, and the totals that can be read back, grow by exactly that event; the file is due exactly every so many events |
| `ProfileFile.OffsetLeadsToName` | src/profile.c:443-477 | the string offset of a symbol leads to its name |
| `ByteOrder.SwappedTwice` | src/mprof.c:373-388 | converting the byte order of a word twice gives the word back |
| `ProfileFile.UsesStable` | src/profile.c:426-446 | an index and an offset once given out stay right while more are given out |
| `ProfileFile.WriteNodes` | src/profile.c:421-453 | the first pass gives each symbol the index and offset that the later passes will realise |
| `ProfileFile.WriteAddresses` | src/profile.c:456-464 | the second pass writes each address once, in the order of the indices, and clears the indices |
| `ProfileFile.WriteNames` | src/profile.c:467-477 | the third pass does the same for names and offsets |
| `ProfileFile.WriteProfile` | src/profile.c:390-478 | what is written is a function of the tables, and all temporary values are zero again |
| `ProfileFile.SaveProfile` | src/profile.c:354-478 | the tables of every reachable profiler can be written |
| `ProfileFile.SiteResolves` | src/mprof.c:526-578 | the two numbers stored with a call site lead to the address and the name of its symbol |
| `ProfileFile.ReadFile` | src/mprof.c:421-579 | reading what was written, on a machine of either byte order, gives back bounds, bins, totals, statistics, call sites, order and symbols |
| `EdgeGraph.Graph.AddEdge` | src/graph.c:104-111 | the edge is last in both lists, and every list of every node still holds exactly its edges in the order of their addition |
| `EdgeGraph.Graph.RemoveEdge` | src/graph.c:119-125 | the edge is gone from both lists and the order of the others stays |
| `EdgeGraph.Graph.RemoveNode` | src/graph.c:79-95 | exactly the edges that touch the node are gone, loops included |
| `EdgeGraph.Graph.FindEdge` | src/graph.c:133-145 | the first edge added between the two nodes, or none if there is none |
| `EdgeGraph.SideWithout` | src/graph.c:119-125 | what is left of a node's list when edges are removed |
| `CallGraph.SameCallersPath` | src/mprof.c:352-367 | stacks that compare equal pass through the same vertices |
| `CallGraph.CompareStack` | src/mprof.c:352-367 | decides whether all callers match one by one, or without the flag the callers down to the depth limit |
| `CallGraph.Graph.AddStack` | src/mprof.c:734-798 | a stack adds what it has once to what leaves each vertex it passes, however often it passes, and to what reaches a vertex as often as the walk enters it from a vertex that is new to it; it leaves no mark behind |
| `CallGraph.Graph.BuildGraph` | src/mprof.c:709-803 | what leaves a vertex is the sum over all stacks through it; what reaches it is the sum over the entries of all stacks; the lists of children and parents of its node in the graph add up to the same; what leaves the start and what reaches the end are both the sum over all stacks; an edge is flagged if and only if a stack goes round a cycle by it; all marks are clear |
| `CallGraph.ReachingIsLeaving` | src/mprof.c:748-775 | what reaches a vertex is what leaves it if no stack through it is recursive |
| `CallGraph.TotalsAgree` | src/mprof.c:742-780 | what leaves the start is what reaches the end |
| `CallGraph.ListsSum` | src/mprof.c:685-701 | adding up the edges in the list of children of a node gives what leaves it, and in its list of parents what reaches it |
| `CallGraph.MirroredLists` | src/mprof.c:685-701 | so do the lists of a graph with the same edges |
| `ProfileGraph.InputOk` | src/mprof.c:421-579 | a profiler that was saved and read back is fit for the call graph: callers come first, and equal addresses have equal symbols |
| `ProfileGraph.AllIsDrawn` | src/mprof.c:709-803 | the shares of all stacks that the graph is built from add up to what the profiler has recorded |
| `ProfileGraph.Draw` | src/mprof.c:421-803 | saving a profiler in any reachable state, reading the file in either byte order and building the graph: for each counter what leaves the start and what reaches the end is what was recorded |
| `Slots.SlotTable.InitSlots` | src/slots.c:83-104 | every new slot is aligned and inside the block, no further slot is sure to fit, and the chain holds them in front of the old ones |
| `Slots.SlotTable.GetSlot` | src/slots.c:112-122 | hands out the slot that was freed last |
| `Slots.SlotTable.FreeSlot` | src/slots.c:131-139 | the slot is first in the chain |
| `TraceSim.NumberOfAddress` | src/mptrace.c:339-341 | the number of a slot is recovered from its address |
| `TraceSim.FindSlot` | src/mptrace.c:349-383 | a fresh slot is taken only if all slots ever used are in use |
| `TraceSim.AllocOk` | src/mptrace.c:870-905 | an allocation keeps the invariant: live allocations have slots of their own, and as many slots were ever used as were live at the peak |
| `TraceSim.ReallocOk` | src/mptrace.c:916-965 | so does a reallocation |
| `TraceSim.FreeOk` | src/mptrace.c:975-1005 | so does a free |
| `TraceSim.Tracer.ReadAlloc` | src/mptrace.c:870-905 | in any reachable state with fewer than 4096 live allocations the allocation becomes live, the statistics with their peaks and extreme sizes follow and the invariant stays |
| `TraceSim.Tracer.ReadRealloc` | src/mptrace.c:916-965 | in any reachable state a live allocation keeps its slot, the statistics follow and the invariant stays |
| `TraceSim.Tracer.ReadFree` | src/mptrace.c:975-1005 | in any reachable state a live allocation gives up its slot, the statistics follow and the invariant stays |
| `TraceSim.SimulationFits` | src/mptrace.c:867-1018 | in every reachable state the live allocations have different slots within the declared array size, which is the peak live count or 1, and running the emitted lines leaves a block of the right size in each |
| `TraceSim.Tracer.ReadTrace` | src/mptrace.c:860-1018 | after a whole well-formed trace the array is as large as the peak number of live allocations, but at least 1; the live allocations, the counts and sums of allocations and frees, the peaks and the extreme sizes are those of the trace; the emitted lines run if and only if no size of 0 stands in their way, and then hold as many blocks as are live |
| `TraceSim.EmptyExample` | src/mptrace.c:900-905 | the lines of an allocation of no bytes cannot be run |
| `Options.OptionBuffer.AddOption` | src/mpatrol.c:374-402 | the buffer is the name of the variable, what it held before and the printed list of options, and its length is recorded; it gives up exactly if the list does not fit |
| `Options.Tokenise` | src/option.c:441-489 | the tokeniser, which takes quotes out in place, finds the tokens of the text |
| `Options.GoodListComesBack` | src/option.c:441-489 | good options come back as they were given |
| `Options.OnlyGoodListsComeBack` | src/option.c:441-489 | a value with white space but no space is cut short |
| `Options.TokensHaveNoQuotes` | src/option.c:454-483 | no token contains a quote |
| `Options.RoundTripIff` | src/mpatrol.c:395-400 | options come back if and only if every value is good |
| `Options.OptionBuffer.Inherit` | src/mpatrol.c:416-425 | the value from before is copied behind the name; the copy is written behind the buffer if and only if they and the terminator are longer than it |
| `Options.VariableComesBack` | src/mpatrol.c:405-425 | options that the variable held before are acted upon first, and those that were added come back if and only if every value is good and what was there does not end in open quotes |
| `Options.OpenEndSpoils` | src/option.c:441-489 | open quotes spoil whatever is added |
| `Options.OpenQuoteExample` | src/option.c:454-483 | a good option that is lost behind a quote that is not closed |
| `Options.EarlierRunComesBack` | src/mpatrol.c:395-425 | options of an earlier run and of this one come back, with or without spaces in their values |
| `Options.TabExample` | src/mpatrol.c:395-400 | a value that does not come back |
| `LeakTable.HashLoc` | src/leaktab.c:163-180 | the bucket is a function of the key, with signed characters and wrap-around as in C |
| `LeakTable.HashCmpIsEquality` | src/leaktab.c:188-196 | two keys are taken for the same if and only if they are |
| `LeakTable.Leaktab.AllocEntry` | src/leaktab.c:235-260 | refines an update of a map from keys to counters |
| `LeakTable.Leaktab.FreeEntry` | src/leaktab.c:268-287 | refines an update that keeps freed counts at or below allocated ones; nothing changes if the key is unknown |
| `LeakTable.Leaktab.Clear` | src/leaktab.c:109-119 | the empty map |
| `LeakTable.Leaktab.Sort` | src/leaktab.c:127-155 | the tree holds exactly the entries whose chosen measure is positive, each under its measure |
| `Glob.ScanMeans` | src/getopt.c:348-358 | scans a closed class to its end and tells whether the character is in it, and an open one beyond the terminator |
| `Glob.RunMeans` | src/getopt.c:335-380 | with nothing behind the terminator, the matcher runs past the end exactly if it scans an open class, and else decides the language |
| `Glob.StaysInside` | src/getopt.c:335-380 | whatever is behind the pattern, the matcher reads it if and only if it scans an open class; otherwise its answer is whether the string is in the language |
| `Glob.BehindDecides` | src/getopt.c:348-358 | when an open class is scanned, some text behind the pattern makes the answer 0, and some makes it 1 if and only if the class has not ruled out the characters that it is compared with |
| `Glob.RuledOutExample` | src/getopt.c:348-358 | an open class that takes nothing, whatever is behind it |
| `Glob.OpenClassExample` | src/getopt.c:348-358 | an unclosed class whose answer depends on what is behind the pattern |
| `Glob.OpenRangeExample` | src/getopt.c:348-358 | the same for a range without an upper end |
| `Glob.SignedRangeExample` | src/getopt.c:348-358 | ranges compare characters as signed numbers |
| `Glob.Match` | src/getopt.c:335-380 | for every string and every memory that begins with a pattern, returns 1 if and only if the string is in the language of the pattern, unless an open class is scanned; in every case it reads what the C code reads |
| `LinkedList.InsertIsList` | src/list.c:120-130 | the four stores of an insertion make the list with the node at that place, and change no word outside the list and the node |
| `LinkedList.RemoveIsList` | src/list.c:138-143 | the two stores of a removal make the list without the node |
| `LinkedList.OtherList` | src/list.c:120-143 | no operation on one list disturbs a disjoint one |
| `LinkedList.ListMemory.NewList` | src/list.c:52-58 | an empty list with its merged sentinels |
| `LinkedList.ListMemory.AddHead` | src/list.c:66-76 | the node is first |
| `LinkedList.ListMemory.AddTail` | src/list.c:84-94 | the node is last |
| `LinkedList.ListMemory.Prepend` | src/list.c:102-112 | the node is before the given one |
| `LinkedList.ListMemory.Insert` | src/list.c:120-130 | the node is after the given one |
| `LinkedList.ListMemory.Remove` | src/list.c:138-143 | the node is gone |
| `LinkedList.ListMemory.RemHead` | src/list.c:152-163 | the first node is returned and gone, or null for an empty list |
| `LinkedList.ListMemory.RemTail` | src/list.c:172-183 | the last node is returned and gone, or null for an empty list |

## Left out

- Allocator.AllocHead.GetAlloc: what happens after a buffer has been written outside memory is left open. Requests are bounded so that the size with both buffers and two pages does not wrap.
- Allocator.AllocHead.GetAllocIfRoom: stops with `NoRoom` where the C code goes on with a size that has wrapped around, because nothing can be said of later calls on a heap that is not sound.
- Allocator.AllocHead.SplitNode: nodes are values in a sequence, named by their addresses, so that the identity and the reuse of node slots are not modelled; whether a slot is found is an input.
- SearchTrees.SearchLower: the allocator's trees are sets of keys with the nodes they belong to, searched by a scan with the contract of `TreeNodes.TreeRoot.SearchLower`; which of several free blocks of the same size is found, which depends on the shape of the tree, is left open there.
- TreeNodes.TreeRoot.SearchLower: searches whole trees only, as all callers do; the nodes of one tree are a map of their own.
- Memory.MemCopy: one array of bytes with words of 8 bytes; addresses are indices, and the word size of other platforms is not a parameter.
- BitTricks.ShiftRoundsIff: what a shift out of the range of an `int` gives is taken to be two's complement up to the sign bit, and undefined beyond. The search for the highest bit is a logarithm.
- MemoryInfo.AlignmentHonoured: alignments are rounded with unbounded numbers (`Rounding.PowerOfTwo`), so not for an alignment given to `memalign` that is no power of two and too large for the shift of `src/utils.c:94`; any other alignment above a page becomes a page.
- Runs.RunSound: user writes stay inside live payloads; memory protection and watch points do nothing, but the flag that replaces fill bytes by watch points is modelled. The default alignment and the allocation byte are constants of an `AllocHead`; `Heap.SettingsSound` is about changing them.
- MemoryInfo.InfoHead.GetMemory: logging, stop indices, peaks, the marked total, and the calls into the leak table, the profiler and the trace are left out; so is the reuse of information nodes, which `__mp_recyclefreed` does not give back.
- MemoryInfo.InfoHead.CheckInfo: the log message and the abort; the result is the address of the byte that would be reported.
- MemoryInfo.InfoHead.CheckAlloca: which stack frames are gone is an input, because unwinding is platform code.
- Mutex.NoDeadlock: says that a step is possible, not that the scheduler is fair. A thread leaves only what it has entered, and signals and `fork` are left out.
- ProfileCounts.Profiler.Record: sizes are at least 1, which the callers guarantee; the counters do not wrap around.
- ProfileFile.ReadFile: a file is a sequence of words of 8 bytes and characters; the marker that tells machines with other word sizes apart is one word, and a file that was not written by this writer may be refused at any point. Which symbol belongs to an address does not change between calls.
- CallGraph.Graph.BuildGraph: one of the sixteen counters of a set of statistics at a time; what is printed of the graph is left out.
- CallGraph.SameCallersPath: one way only, since two different stacks may pass through the same vertices.
- TraceSim.Tracer.ReadTrace: well-formed traces with at most 4096 live allocations, after decoding. A size of zero stands for an unset value in the smallest size, which is then the smallest since the last size of zero. What `realloc` does with a size of zero is an input.
- LeakTable.Leaktab.Sort: the sorted tree is a set of keys with their entries; the order of entries with equal measures is left open.
- Glob.Match: a pattern that scans an open class has no answer of its own; `Glob.BehindDecides` says what the memory behind the pattern can make of it.
- LinkedList.ListMemory.AddTail: pointers are indices into an array of words; `__mp_joinlist` is left out, since nothing in the repository calls it.
- Options.OptionBuffer.AddOption: which options `setoptions` adds, and what each option does apart from NOFREE, DEFALIGN and ALLOCBYTE, are left out; so is what happens after the copy of an earlier value has been written behind the buffer.
- Heap manager (`src/heap.c`), `mmap`, page protection, watch points and `/proc`: replaced by what the heap manager promises, fresh page-aligned memory outside the heap, or by failure.
- Stack unwinding, symbol reading, signals, `fork`, user callbacks, the entry points `src/malloc.c`, `src/cplus.c` and `src/mpalloc.c`, diagnostics, HTML output, option help, the X11 display and `src/mleak.c`: platform code, output, or thin wrappers.
- LEB128 coding and the buffers of `src/mptrace.c` and `src/trace.c`: events are modelled after decoding.
