# RT-Thread kernel: verified models

Dafny models of four cores of an RT-Thread kernel fork, with machine-checked proofs:

- the scheduler and the IPC objects (`src/scheduler.c`, `src/thread.c`, `src/ipc.c`),
- the timer skip list (`src/timer.c`),
- the three heap allocators (`src/memheap.c`, `src/mem.c`, `src/slab.c`),
- the FinSH compiler and its stack machine (`components/finsh/`).

The models take the single-CPU build with 32-bit `long` and without signals. One step is one region
with interrupts disabled or one region under the heap lock. Kernel objects that the source updates
in place are classes; each method is proved equal to a step function on values, and the properties
of whole runs are proved about sequences of those steps. Clocks, callbacks, called functions, thread
identities and priorities are parameters.

`dafny verify dfyconfig.toml` checks the project.

## How it is organised

| files | content |
|---|---|
| `FinshWord` `FinshArith` `FinshTree` `FinshExpr` `FinshLaws` `FinshRaw` `FinshVm` `FinshCompiler` `FinshCorrectness` `FinshLimits` | words and operands; what the operators compute; node trees and their code; expressions and their meaning; laws of it; what their code leaves when operators are missing; the stack machine; the compiler on the node table; compiler correctness; code size |
| `Arith` | products and remainders |
| `RingList` | circular doubly linked lists |
| `Segments` `HeapMemory` `HeapSpec` | rows of blocks, bytes of a heap, and what allocating, freeing and resizing do to them |
| `MemheapModel` `Memheap` `MemheapAlign` | `memheap.c`, and its alignment over runs |
| `SmallHeapModel` `SmallHeap` `SmallHeapScan` | `mem.c`, and when its scan ends |
| `SlabPages` `SlabZone` `Slab` `SlabKeep` `SlabHeap` | `slab.c`: pages, one zone, all zones, the zones it keeps, `rt_malloc` and `rt_free` |
| `SortedList` | lists ordered by a key |
| `TimerSpec` `TimerRuns` `TimerLoop` `SkipList` | timers as one sorted list, when they fire in a run, when the check ends, and the skip list that implements it |
| `WaitList` | wait lists and the accounting of wake-ups |
| `MessageQueueSpec` `MessageQueueOrder` `MessageQueue` `Mailbox` `MailboxRuns` `Semaphore` `SemaphoreRuns` `EventFlags` `EventRuns` `Mutex` `MutexRuns` | the IPC objects, and what their runs do in terms of the calls |
| `PriorityInheritance` `PriorityChains` `PriorityRecord` | priorities with one mutex per thread, with chains of owners, and with nested mutexes |
| `Bits` `SchedulerSpec` `SchedulerEffects` `Scheduler` | `__rt_ffs`, scheduling on ready queues, what each call does to every thread, and the bitmaps over them |

## What the proofs found

Where the code does less than one would expect, the code is modelled as it is and the exact
condition is proved for all inputs or runs; for some a concrete case is given as well:

- FinSH: a function name has no data type, and neither has a call of it, so an operator with such a
  first operand emits nothing. What a line then does is exact for every line (`CompiledLineLeaves`,
  `OneValueExactly`), and spelled out for one operator (`OperatorCorrectIffTyped`, `DerefCorrectIff`,
  `EarlierOperatorCorrectIff`). The node limit bounds the stack; the text segment is safe up to 11
  nodes and not beyond (`NodeLimitForText`).
- `memheap.c`, `mem.c`: sizes near 2^32 wrap around when aligned (`RequestCoversSize`,
  `NeedCoversSize`), and so does the test for growing in place (`GrowTestExact`, `GrowWraps`).
  `slab.c` refuses such sizes (`PagesCover`).
- `memheap.c`: with RT_ALIGN_SIZE 8 the minimum request of 12 bytes breaks the alignment exactly
  when it cuts a block (`AlignedExactly`).
- `mem.c`: an exact fit at the end of the heap is never found (`OnlyExactLastFitSkipped`); the
  shrinking path of `rt_realloc` does not lower `lfree` (`SmallHeap.Heap.Shrink`); making a block
  smaller by no more than a header and 12 bytes can fail (`SmallHeap.Heap.Realloc`).
- `slab.c`: the comment promises that power-of-two sizes are aligned to themselves. This holds up to
  a page; above, exactly when the first page of the zone or block is aligned, which for 8192 bytes
  depends on the size of the page table (`SlabHeap.Heap.Malloc`, `FirstChunk8192`).
- `timer.c`: the comparison window is not assumed; it follows from the bound on the periods and the
  check at every tick (`TimerSpec.RunKeeps`), and it is exact (`CompareOutside`). A period of 0 on a
  due periodic timer makes the check run forever unless a timer that fires stops it
  (`EndsExactly`).
- `ipc.c`: 8-bit and 16-bit counters are exact up to their limits and not beyond
  (`TakeSafeExactly`, `ReleaseBalances`). Priority inheritance holds for one mutex per thread and
  can fail for FIFO order, two mutexes and chains (`FifoInverts`, `TwoMutexesStick`,
  `NotTransitive`). Owners stay urgent exactly under the conditions of `UrgentExactly` and
  `PassedOnUrgent`; a thread returns to its own priority exactly under that of `RestoresRecorded`,
  which nesting that ends with the first mutex meets (`NestingRestores`).

## Model

| member | source | states |
|---|---|---|
| `FinshCorrectness.CompiledLineComputesItsMeaning` | `components/finsh/finsh_compiler.c:43-937` | compiler correctness: for every line of well-typed dword statements whose code fits, with int, long, string and NULL constants, functions by name and calls by name or through a pointer, every memory and every behaviour of the called functions, running the emitted bytes on an empty stack ends with one value, that of a direct left-to-right evaluation, and with the memory that evaluation gives |
| `FinshCorrectness.CompiledLineLeaves` | `components/finsh/finsh_compiler.c:43-937` | what the code of any line does, well-typed or not: it ends with exactly the values that are left when every operator with an untyped first operand, at any depth, is missing; so the line is computed correctly if and only if these are the one value and the memory of a direct evaluation |
| `FinshCorrectness.OneValueExactly` | `components/finsh/finsh_compiler.c:217-284` | a line of any types ends with a single value if and only if no binary operator and no store through a pointer in it, at any depth, has an untyped first operand |
| `FinshCorrectness.RunAny` | `components/finsh/finsh_ops.c:317-569` | running the code of any expression, typed or not, pushes its raw values and leaves the rest of the stack alone |
| `FinshRaw.RawIsEval` | `components/finsh/finsh_ops.c:317-569` | the raw values of a well-typed expression are its value alone, with the memory of evaluating it |
| `FinshRaw.LeftOne` | `components/finsh/finsh_compiler.c:217-284` | an expression leaves a single value exactly when all its two-operand operators have typed first operands |
| `FinshCorrectness.RunExpr` | `components/finsh/finsh_ops.c:317-569` | running the code of one expression pushes its value, changes memory as evaluating it does, and leaves the rest of the stack alone |
| `FinshCorrectness.RunArgs` | `components/finsh/finsh_ops.c:444-569` | the arguments of a call end on the stack in order, with their side effects from left to right |
| `FinshCorrectness.RunStatements` | `components/finsh/finsh_compiler.c:917-934` | statements separated by pop instructions run one after the other; only the last value stays |
| `FinshCorrectness.NodeLimitBoundsMachine` | `components/finsh/finsh.h:26-33` | a line of at most FINSH_NODE_MAX nodes needs at most FINSH_STACK_MAX stack slots, and no call has more arguments than OP_call has room for |
| `FinshLimits.NodeLimitForText` | `components/finsh/finsh.h:26-33` | a limit on the nodes keeps every line in the text segment if and only if the longest line of that many nodes fits; for FINSH_TEXT_MAX that is so up to 11 nodes, so not for FINSH_NODE_MAX |
| `FinshLimits.ProgramBound` | `components/finsh/finsh_compiler.c:43-937` | the code of a line of n nodes of the modelled kinds, typed or not, has at most 12 n - 1 bytes, and 6 less if n is odd |
| `FinshLimits.LongestCompiles` | `components/finsh/finsh_compiler.c:43-937` | for every n there is a well-typed line of n nodes that reaches this bound |
| `FinshCorrectness.OperatorOnCallEmitsNothing` | `components/finsh/finsh_compiler.c:791-795` | an operator whose first operand has no data type, such as a call of a function by its name, is missing from the code |
| `FinshCorrectness.OperatorCorrectIffTyped` | `components/finsh/finsh_compiler.c:217-284` | a binary operator, a complement or a store through a pointer on well-typed operands computes what it means if and only if its first operand has a data type |
| `FinshCorrectness.UntypedIsCall` | `components/finsh/finsh_compiler.c:759-901` | the well-typed operands without a data type are exactly the names of functions and calls of what has none |
| `FinshCorrectness.DerefCorrectIff` | `components/finsh/finsh_compiler.c:718-740` | reading through a pointer computes what it means if and only if the pointer has a data type, or the memory it points to happens to hold the pointer itself |
| `FinshCorrectness.EarlierOperatorCorrectIff` | `components/finsh/finsh_compiler.c:917-934` | in front of other statements an operator leaves the line correct if and only if its first operand has a data type or it is a complement, whose value is popped |
| `FinshExpr.CodeOfProgram` | `components/finsh/finsh_compiler.c:903-937` | type checking and compiling the tree of any line, typed or not, gives exactly the code of its statements |
| `FinshExpr.TypeOfEncode` | `components/finsh/finsh_compiler.c:759-901` | the type check gives an expression the data type of its first child, all the way down, and none to a function name |
| `FinshExpr.FewNodesFitCallsAll` | `components/finsh/finsh_ops.c:444-470` | a line of few nodes has no call with too many arguments |
| `FinshTree.StripProgramCode` | `components/finsh/finsh_compiler.c:43-757` | the emitted code does not depend on where in the node table the nodes of a line are |
| `FinshWord.Get32Put32` | `components/finsh/finsh.h:38-55` | an operand read from the text segment is the operand that was written |
| `FinshVm.Vm.BinDword` | `components/finsh/finsh_ops.c:42-45` | the two top slots are replaced by the result of the operator on them, in this order; what the operators compute is stated by the laws of FinshArith |
| `FinshArith.AddExact` | `components/finsh/finsh_ops.c:69-74` | the sum of the signed 32-bit numbers, exact if it fits and right modulo 2^32 otherwise |
| `FinshArith.SubExact` | `components/finsh/finsh_ops.c:91-96` | the same for the difference |
| `FinshArith.MulExact` | `components/finsh/finsh_ops.c:157-162` | the same for the product |
| `FinshArith.DivExact` | `components/finsh/finsh_ops.c:113-140` | division and remainder: the quotient times the divisor plus the remainder is the dividend, the remainder is smaller than the divisor and has the sign of the dividend |
| `FinshArith.BitByBit` | `components/finsh/finsh_ops.c:179-262` | and, or, exclusive or and complement act on each of the 32 bits |
| `FinshArith.ShiftLeft` | `components/finsh/finsh_ops.c:267-272` | the bits move up and zeros follow |
| `FinshArith.ShiftRight` | `components/finsh/finsh_ops.c:289-294` | the bits move down and copies of the sign follow |
| `FinshVm.Vm.LoadDword` | `components/finsh/finsh_ops.c:317-388` | the operand, or the memory it points to, is pushed and the program counter passes the operand |
| `FinshVm.Vm.PopArguments` | `components/finsh/finsh_ops.c:444-470` | the parameter array gets the arguments in call order although they are popped in reverse |
| `FinshVm.Vm.Call` | `components/finsh/finsh_ops.c:444-569` | function and arguments are replaced by the result of the call, which gets the arguments in their order, or a single 0 if there are none |
| `FinshLaws.CallPasses` | `components/finsh/finsh_ops.c:466-470` | a call passes the values of its arguments in their order, or a single 0 |
| `FinshLaws.ArgumentAt` | `components/finsh/finsh_compiler.c:285-310` | argument number i is evaluated after the arguments before it |
| `FinshLaws.AssignReads` | `components/finsh/finsh_compiler.c:311-372` | a variable reads back what was assigned, and other variables keep their values |
| `FinshLaws.StoreLoads` | `components/finsh/finsh_compiler.c:311-372` | loading through a pointer gives what was stored through it |
| `FinshLaws.StoreThroughAddress` | `components/finsh/finsh_compiler.c:718-744` | a store and a load through the address of a variable are those of the variable |
| `FinshLaws.PrefixIsAssignment` | `components/finsh/finsh_compiler.c:373-534` | prefix increments and decrements are assignments |
| `FinshLaws.PostfixYieldsOld` | `components/finsh/finsh_compiler.c:535-713` | postfix ones do the same and yield the old value |
| `FinshVm.Vm.Execute` | `components/finsh/finsh_vm.c:63-71` | fetch and dispatch perform exactly one step of the machine |
| `FinshVm.Vm.Run` | `components/finsh/finsh_vm.c:47-72` | finsh_vm_run ends, because every instruction advances the program counter, in the final state of the machine |
| `FinshCompiler.Compiler.TypeCheck` | `components/finsh/finsh_compiler.c:759-901` | the type check annotates the tree in place and touches no node outside it |
| `FinshCompiler.Compiler.Compile` | `components/finsh/finsh_compiler.c:43-757` | the code of child, node and sibling is written at the program counter in this order, and nothing else in the text segment changes |
| `FinshCompiler.Compiler.Run` | `components/finsh/finsh_compiler.c:903-937` | the text segment ends up holding the code of the line followed by no-operation bytes |
| `FinshCompiler.EvaluateLine` | `components/finsh/finsh_vm.c:47-72` | from the node table to the bottom of the stack: whatever the layout of the nodes and the types, compiling and running a line gives its first raw value, which for a well-typed line is its value, and its effect on memory |
| `RingList.RingInsertAfter` | `include/rtservice.h:58-65` | inserting behind a node of a circular list gives the circular list with the new node in that place |
| `RingList.RingInsertBefore` | `include/rtservice.h:73-80` | inserting in front of a node, at the end if that node is the head |
| `RingList.RingRemove` | `include/rtservice.h:86-92` | removing a node closes the list and leaves the node as a list of its own |
| `RingList.OtherRing` | `include/rtservice.h:47-92` | an operation on one list leaves every list that shares no node with it alone |
| `RingList.RemoveUndoesInsert` | `include/rtservice.h:58-92` | removing what was inserted restores the list |
| `RingList.ListMemory.ListInit` | `include/rtservice.h:47-50` | the node becomes a list of its own |
| `RingList.ListMemory.ListInsertAfter` | `include/rtservice.h:58-65` | the four pointer writes amount to the insertion |
| `RingList.ListMemory.ListInsertBefore` | `include/rtservice.h:73-80` | the four pointer writes amount to the insertion |
| `RingList.ListMemory.ListRemove` | `include/rtservice.h:86-92` | the four pointer writes amount to the removal |
| `RingList.ListMemory.ListIsEmpty` | `include/rtservice.h:98-101` | true exactly for a list with no node but its head |
| `RingList.ListMemory.ListLen` | `include/rtservice.h:107-118` | the number of nodes besides the head |
| `Segments.Conservation` | `src/memheap.c:138-278` | payload bytes of used and free blocks and one header per block always add up to the pool |
| `Segments.Disjoint` | `src/memheap.c:138-278` | two blocks of the pool never overlap |
| `HeapSpec.AllocSets` | `src/memheap.c:183-258` | an allocation adds exactly the new block to the live ones |
| `HeapSpec.FreeSets` | `src/memheap.c:535-591` | freeing takes away exactly the freed block |
| `HeapSpec.FreeKeepsCoalesced` | `src/memheap.c:535-591` | after joining with free neighbours no two neighbours are free |
| `HeapSpec.FreeTotals` | `src/memheap.c:535-591` | the free bytes grow by the block and by one header for every join |
| `HeapSpec.ShrinkFacts` | `src/memheap.c:432-485` | cutting a block keeps the tiling and the other live blocks, and the cut-off part becomes available |
| `HeapMemory.MoveResized` | `src/memheap.c:408-416` | allocate, copy and free together resize a block: the common bytes are there and no other live block changed |
| `HeapMemory.CopyBytes` | `src/kservice.c:210-280` | the destination gets the source bytes and no other byte changes, for regions that do not overlap |
| `Memheap.MemHeap.constructor` | `src/memheap.c:50-117` | a pool with one free block between its header and its end marker satisfies the invariant |
| `Memheap.MemHeap.Alloc` | `src/memheap.c:138-278` | the first block of the free list that fits is used, split if the rest can hold a block; failure means that the request is not below the available size or that no free block fits; no live byte changes; payloads are 4-aligned when the pool is; an 8-aligned pool stays 8-aligned if and only if the aligned request is a multiple of 8 or the block is handed out whole; the block has exactly the request if it was split, else its whole size |
| `Memheap.MemHeap.Free` | `src/memheap.c:495-595` | the block becomes free and joins its free neighbours; tiling, links, free list, available size and alignment stay exact and no live byte changes |
| `Memheap.MemHeap.Realloc` | `src/memheap.c:284-492` | in place or moved, the block has the new size and the bytes both sizes have in common, and no other live block is disturbed; shrinking never fails, and growing fails only if neither the right neighbour nor a new block can supply the bytes, and then nothing changes; with RT_ALIGN_SIZE 8 an aligned pool stays aligned if and only if the block is not cut or grown in place for a size of at most 8; a block that is cut or grown in place stays where it is with exactly the new size, and otherwise one that is large enough is left alone |
| `Memheap.MemHeap.GrowInPlace` | `src/memheap.c:350-402` | growing into a free right neighbour keeps the contents and the invariant, and the 8-alignment if and only if the size is a multiple of 8 |
| `Memheap.MemHeap.Shrink` | `src/memheap.c:419-492` | shrinking gives the rest back, joined with a free right neighbour, and keeps the 8-alignment if and only if the size is a multiple of 8 |
| `HeapSpec.AlignExact` | `include/rtdef.h:286-295` | RT_ALIGN and RT_ALIGN_DOWN give the multiples next to the size; RT_ALIGN gives 0 if it wraps around |
| `Memheap.RequestCoversSize` | `src/memheap.c:147-150` | a request is met in full if and only if aligning it does not wrap around; the request is the minimum or less than RT_ALIGN_SIZE above the size |
| `Memheap.GrowTestExact` | `src/memheap.c:350-350` | the test for growing in place is right if and only if its right side does not wrap around |
| `Memheap.GrowWraps` | `src/memheap.c:350-370` | where it wraps around, growing is chosen unless both blocks are tiny, and the rebuilt header lies inside the header of the block itself |
| `Memheap.Request8` | `src/memheap.c:147-150` | with RT_ALIGN_SIZE 8 a request is rounded to a multiple of 8 if and only if it exceeds 8 bytes and does not wrap around |
| `MemheapAlign.StepAligned` | `src/memheap.c:183-258` | an allocation, a release or a resizing in place keeps an 8-aligned row of blocks aligned if and only if it asks for more than 8 bytes or cuts nothing |
| `MemheapAlign.AlignedExactly` | `src/memheap.c:34-34` | in a run of these every block stays 8-aligned throughout if and only if no step cuts a block for at most 8 bytes |
| `MemheapModel.SplitOff` | `src/memheap.c:192-225` | splitting keeps both circular lists in agreement with the blocks |
| `MemheapModel.Swallow` | `src/memheap.c:559-578` | joining with the right neighbour keeps both circular lists in agreement with the blocks |
| `SmallHeap.Heap.constructor` | `src/mem.c:204-252` | one free block and the end marker satisfy the invariant, and lfree is the lowest free block |
| `SmallHeap.Heap.Malloc` | `src/mem.c:272-410` | the lowest fitting block among offsets below mem_size_aligned - size is used; it fails if and only if the size is 0 or exceeds the heap or there is no such block; the payload is aligned to RT_ALIGN_SIZE; lfree stays the lowest free block; used_mem is the extent of the used blocks; no live byte changes; the block has exactly the request if it was split, else its whole size |
| `SmallHeap.Heap.Free` | `src/mem.c:546-609` | the block becomes free and joins its free neighbours; lfree stays the lowest free block; no live byte changes |
| `SmallHeap.Heap.PlugHoles` | `src/mem.c:156-194` | a free block is joined with its free neighbours and lfree moves along |
| `SmallHeap.Heap.Shrink` | `src/mem.c:471-498` | the cut-off part becomes free; lfree is still the lowest free block if and only if it was below the block or the right neighbour was free |
| `SmallHeap.Heap.Move` | `src/mem.c:501-510` | the contents move to a new block and the old one is freed; on failure nothing changes |
| `SmallHeap.Heap.Realloc` | `src/mem.c:421-510` | in place or moved, the block has the new size and the common bytes, and no other live block is disturbed; it fails if and only if the size exceeds the heap, or the block has another size, cannot be cut and rt_malloc has no room; lfree stays the lowest free block if and only if the block is not cut in place, or lfree was below it or its right neighbour free; sizes that align to 0 free the block; pointers outside the heap are returned; a block that is cut stays where it is with exactly the new size, and one of that size is left alone |
| `SmallHeap.OnlyExactLastFitSkipped` | `src/mem.c:305-311` | a free block that fits is out of reach of the scan if and only if it is an exact fit at the very end of the heap |
| `SmallHeap.ScanBound` | `src/mem.c:306-306` | the end marker passes the bound of the scan if and only if the request is larger than the heap and not within a header of 2^32 |
| `SmallHeapScan.ScanEndsExactly` | `src/mem.c:305-311` | following the headers from lfree, the scan for a request that is not refused before it ends if and only if the heap is not smaller than the minimum block |
| `SmallHeap.NeedCoversSize` | `src/mem.c:288-300` | a request is met in full if and only if aligning it does not wrap around; the request is the minimum or less than RT_ALIGN_SIZE above the size |
| `SmallHeapModel.PlugIsFree` | `src/mem.c:156-194` | marking a block free and plugging holes is the freeing of the block |
| `SmallHeapModel.CutOk` | `src/mem.c:329-348` | cutting a block keeps `prev` the inverse of `next` |
| `TimerSpec.RunKeeps` | `src/timer.c:296-553` | in every run of starts, stops, setting changes and ticks the pending timers are sorted, flagged active, and due within half the counter range from now, so wrapped comparison is always exact |
| `TimerSpec.FiresOnTime` | `src/timer.c:494-553` | a started timer that is left alone fires at exactly the tick it is due, at the next tick for a period of 0, and not before |
| `TimerRuns.FiresAfterPeriod` | `src/timer.c:296-553` | a timer that is set to n ticks, started and then left alone fires in a run exactly if the run has at least n ticks, and at least one |
| `TimerRuns.FiresEveryPeriod` | `src/timer.c:532-543` | a periodic timer that no callback stops fires again exactly one period after it fired |
| `TimerRuns.OneShot` | `src/timer.c:532-543` | any other timer that fired does not fire again before it is started |
| `TimerRuns.StoppedNeverFires` | `src/timer.c:422-447` | a stopped timer does not fire before it is started again |
| `TimerRuns.SettingsEffect` | `src/timer.c:456-487` | rt_timer_control sets the period or the periodic flag of the timer and changes nothing else |
| `TimerSpec.CheckFires` | `src/timer.c:507-547` | rt_timer_check fires the due timers in list order, except those that an earlier callback stopped |
| `TimerSpec.AllDueFire` | `src/timer.c:507-547` | with callbacks that stop nothing, exactly the due timers fire, in order of time and of start |
| `TimerSpec.FiredAreDue` | `src/timer.c:507-547` | only due timers fire, each at most once, in list order |
| `TimerSpec.CheckRearms` | `src/timer.c:532-543` | the check ends, nothing due is left, and the invariants hold again |
| `TimerSpec.CheckLeaves` | `src/timer.c:532-543` | pending afterwards are exactly the unstopped timers that were not due and the periodic ones that fired and were not stopped from then on, these due one period from now |
| `TimerLoop.EndsExactly` | `src/timer.c:507-547` | for any callbacks that stop timers, the loop of rt_timer_check ends if and only if every due periodic timer with period 0 is stopped by a timer that the first pass fires |
| `TimerLoop.ZeroPeriodNeverEnds` | `src/timer.c:507-547` | with callbacks that stop nothing, it ends if and only if no due timer is periodic with period 0 |
| `TimerLoop.FireIsTurn` | `src/timer.c:518-543` | a round acts on the due timers like on a queue: the first one leaves, those it stops leave too, and it goes to the end if it is periodic with period 0 |
| `TimerSpec.FireFacts` | `src/timer.c:518-543` | one round of the loop keeps the invariants and lowers the number of due timers |
| `SkipList.Compare` | `src/timer.c:359-366` | inside the window the test on wrapped ticks decides the order of the real times |
| `SkipList.CompareOutside` | `src/timer.c:359-366` | outside the window it decides wrongly, so the window is exact |
| `SkipList.CompareDue` | `src/timer.c:516-516` | the due test on wrapped ticks is the due test on real times |
| `SkipList.LevelBelow` | `src/timer.c:342-391` | each level is a subsequence of the next lower one |
| `SkipList.LayeredInsert` | `src/timer.c:376-391` | inserting on the lowest levels, each at its own place, keeps every level a subsequence of the bottom |
| `SkipList.LayeredRemove` | `src/timer.c:121-129` | removing a timer from every level does too |
| `SkipList.TimerList.Scan` | `src/timer.c:345-367` | the scan of a level stops behind the last timer due no later |
| `SkipList.TimerList.FindPlaces` | `src/timer.c:342-370` | descending from level to level finds the place of a linear search on every level |
| `SkipList.TimerList.Insert` | `src/timer.c:342-391` | the timer is linked behind all timers due no later, on the bottom level and on as many levels as the counter says, for any number of levels |
| `SkipList.HeightEvery` | `src/timer.c:372-391` | the insert counter spreads the heights evenly: exactly every (mask + 1)^j-th start gives a timer more than j levels |
| `SkipList.TimerList.Detach` | `src/timer.c:121-129` | the timer leaves every level and no other timer moves |
| `SkipList.TimerList.Start` | `src/timer.c:296-412` | the skip list does what insertion into one sorted list by real time does |
| `SkipList.TimerList.StartDetach` | `src/timer.c:309-315` | the first critical section of rt_timer_start takes the timer out, pending or not |
| `SkipList.TimerList.StartLink` | `src/timer.c:319-396` | the rest starts a timer that is not pending |
| `TimerSpec.StartParts` | `src/timer.c:296-412` | a start is its first critical section, which amounts to a stop, followed by a start, so runs with a stop, any steps and a start cover what comes between them |
| `SkipList.TimerList.Stop` | `src/timer.c:422-447` | an error for inactive timers, else removal from the sorted list |
| `SkipList.TimerList.Check` | `src/timer.c:494-553` | the loop on the skip list fires and re-arms exactly what the check of the sorted list does |
| `SkipList.TimerList.TickIncrease` | `src/clock.c:74-100` | a tick followed by the check keeps the invariants |
| `SkipList.TimerList.NextTimeout` | `src/timer.c:108-119` | the tick of the earliest pending timer, or RT_TICK_MAX |
| `SkipList.TimerList.InitTimer` | `src/timer.c:80-105` | a new timer is on no level and keeps the invariants |
| `WaitList.Suspend` | `src/ipc.c:79-122` | the new list has the thread at the end, or in front of the first less urgent thread |
| `WaitList.EnqueueRanked` | `src/ipc.c:92-117` | a list ordered by priority, and by arrival among equals, stays so |
| `WaitList.EnqueueFifo` | `src/ipc.c:85-90` | in FIFO order a list ordered by arrival stays so |
| `WaitList.EnqueueKeeps` | `src/ipc.c:79-122` | the other threads keep their order |
| `WaitList.WakeFirst` | `src/ipc.c:133-150` | the thread that is woken comes before all that stay |
| `MessageQueueSpec.NextKeeps` | `src/ipc.c:1961-2323` | no step of any thread, at byte granularity, breaks the partition of the slots into free, queued, being filled and being read, a message in transfer, or the wake-ups |
| `MessageQueueSpec.NextRefines` | `src/ipc.c:2002-2018` | a send appends the copied message, an urgent send prepends it, a receive takes the head, a reset empties the queue, and no other step changes the queued messages |
| `MessageQueueSpec.RunRefines` | `src/ipc.c:1961-2323` | every interleaving of overlapping sends, urgent sends, receives and resets acts on the sequence of messages like its events |
| `MessageQueueSpec.FirstInFirstOut` | `src/ipc.c:1961-2265` | in every run without urgent messages and resets, what was queued and sent is what was received followed by what is queued |
| `MessageQueueSpec.Delivered` | `src/ipc.c:2247-2259` | a receiver ends up with a prefix of the message that was at the head when it took the slot |
| `MessageQueueSpec.AcquireEffect` | `src/ipc.c:1972-1998` | a send takes a free slot for its own message; with a long message or no free slot nothing changes |
| `MessageQueueSpec.BufferKept` | `src/ipc.c:1998-2002` | in every run a slot being filled stays that of its sender and of the message it was taken for until it is linked |
| `MessageQueueSpec.TakeWaits` | `src/ipc.c:2158-2210` | a receive from an empty queue waits if it has time, and nobody else moves |
| `MessageQueueSpec.TimeoutEffect` | `src/thread.c:744-766` | a receiver that times out leaves the list, and nothing else changes |
| `MessageQueueSpec.LinkWakesFirst` | `src/ipc.c:2020-2031` | a linked message wakes a receiver that comes before all others of the list |
| `MessageQueueOrder.DeliveredByEvents` | `src/ipc.c:1961-2323` | in every run of overlapping sends, urgent sends, receives and resets the buffer of receive number k ends up with the first bytes of the message that the k-th receiving event takes, and these are the bytes that its sender passed, as far as it passed any |
| `MessageQueueOrder.DeliveredInOrder` | `src/ipc.c:1961-2265` | without urgent messages and resets that is message number k of those queued at the start and then sent, and the bytes are those of the sender of that number |
| `MessageQueueOrder.NextTraced` | `src/ipc.c:1961-2323` | no step of any thread changes what a receive under way or complete has or will get |
| `MessageQueue.QueueObject.constructor` | `src/ipc.c:1778-1825` | all slots of the pool are free, the last one first; sizes are truncated to 16 bits |
| `MessageQueue.QueueObject.Acquire` | `src/ipc.c:1972-1998` | errors for long messages and a full queue, else the first free slot |
| `MessageQueue.QueueObject.FillByte` | `src/ipc.c:2000-2000` | a byte copied into a slot disturbs no queued message |
| `MessageQueue.QueueObject.LinkTail` | `src/ipc.c:2002-2031` | the slot becomes the tail and the first waiting receiver is woken |
| `MessageQueue.QueueObject.LinkHead` | `src/ipc.c:2090-2115` | the slot becomes the head and the first waiting receiver is woken |
| `MessageQueue.QueueObject.Take` | `src/ipc.c:2158-2248` | the head slot, or suspension in the wait list, or a timeout when there is nothing to wait for |
| `MessageQueue.QueueObject.ReadByte` | `src/ipc.c:2250-2251` | a byte copied out is that byte of the message that was taken |
| `MessageQueue.QueueObject.GiveBack` | `src/ipc.c:2253-2259` | the slot becomes the first free one |
| `MessageQueue.QueueObject.Reset` | `src/ipc.c:2286-2320` | all queued slots go to the free list in reverse and all waiting receivers are released |
| `Mailbox.RunKeeps` | `src/ipc.c:1439-1711` | in every run the received mails are a prefix of the sent ones; if receivers are queued, the stored mails do not exceed the woken receivers, and if senders are queued, the free places do not exceed the woken senders |
| `MailboxRuns.FirstInFirstOut` | `src/ipc.c:1439-1711` | in every run without a reset, the mails that the receives returned and then the stored ones are the mails stored at first and then the values of exactly the sends that completed, in order |
| `MailboxRuns.SendEffect` | `src/ipc.c:1458-1557` | a send stores its own value behind the others, or waits in the list of senders, or changes nothing |
| `MailboxRuns.ReceiveEffect` | `src/ipc.c:1604-1710` | a receive takes one mail out, or waits in the list of receivers, or changes nothing |
| `MailboxRuns.TimeoutEffect` | `src/thread.c:744-766` | a sender or receiver that times out leaves its list, and nothing else changes |
| `MailboxRuns.SendWakesFirst` | `src/ipc.c:1541-1552` | a completed send wakes a receiver that comes before all others |
| `MailboxRuns.ReceiveWakesFirst` | `src/ipc.c:1690-1702` | a completed receive wakes such a sender |
| `Mailbox.NextKeeps` | `src/ipc.c:1439-1755` | each try, timeout and reset keeps this |
| `WaitList.WakeServes` | `src/ipc.c:1541-1552` | one more item and one more woken thread keep the wake-ups sufficient |
| `WaitList.TakeServes` | `src/ipc.c:1680-1688` | so does taking an item, by a woken thread or another one |
| `Mailbox.MailboxObject.Send` | `src/ipc.c:1458-1557` | done exactly if there is room, and then the mails are the old ones followed by the given value; otherwise they stay and the sender is in the wait list or the mailbox is full |
| `Mailbox.MailboxObject.Receive` | `src/ipc.c:1604-1710` | a mail exactly if there is one, and then it and the mails left are the old mails; otherwise the receiver is in the wait list or there is a timeout |
| `Mailbox.MailboxObject.Put` | `src/ipc.c:1532-1539` | the ring buffer appends to the queue, across the end of the buffer |
| `Mailbox.MailboxObject.Get` | `src/ipc.c:1680-1688` | the ring buffer gives the oldest mail |
| `Mailbox.MailboxObject.Control` | `src/ipc.c:1731-1751` | a reset empties the mailbox and releases all waiting threads |
| `Mutex.RunKeeps` | `src/ipc.c:651-878` | in every run, with any number of mutexes and nesting: value 1 iff no owner iff not held, and then nobody waits; the owner never waits for its mutex; hold is the takes minus the releases of the owner and nobody else has any left; a thread waits in at most one list, and its timer runs only while it waits |
| `MutexRuns.HoldsExactly` | `src/ipc.c:651-878` | in every run a thread holds a mutex as often as at the start plus the takes of the run that succeeded, at once or by a grant, minus its releases |
| `MutexRuns.ArmedExactly` | `src/ipc.c:727-744` | in every run a thread timer runs exactly if its thread waits with a finite time |
| `MutexRuns.TakeWaits` | `src/ipc.c:700-744` | a take of a mutex that another thread holds waits in its list, and nobody else moves |
| `MutexRuns.LeaveEffect` | `src/thread.c:744-766` | a thread that times out leaves its list without the mutex, and one that returns from a take may call again |
| `MutexRuns.GrantsFirst` | `src/ipc.c:838-858` | the last release passes the mutex to the waiting thread that comes before all others, which then holds it once |
| `Mutex.StartInv` | `src/ipc.c:527-546` | fresh mutexes satisfy the invariant |
| `Mutex.ReturnOwns` | `src/ipc.c:752-765` | a suspended take that returns with success returns to the owner |
| `Mutex.TakeKeeps` | `src/ipc.c:663-776` | taking keeps this, and an immediate success makes the caller the owner |
| `Mutex.ReleaseKeeps` | `src/ipc.c:802-878` | so does releasing, also by a thread that is not the owner |
| `Mutex.TakeSafeExactly` | `src/ipc.c:678-682` | a recursive take keeps the mutex consistent if and only if the 8-bit counter does not overflow |
| `Mutex.MutexObject.Take` | `src/ipc.c:651-776` | the mutex stays consistent if and only if the 8-bit hold counter does not overflow; success if and only if the caller owns the mutex afterwards, and otherwise it is in the wait list or out of time; the owner inherits the priority of a more urgent waiter |
| `Mutex.MutexObject.Release` | `src/ipc.c:787-878` | the last release restores the recorded priority and passes the mutex to the first waiter |
| `PriorityInheritance.PiRunKeeps` | `src/ipc.c:651-878` | in every run of threads that hold or wait for one mutex at a time: the owner is at least as urgent as every waiter, the wait list is ordered by priority and by arrival among equals, and a thread that holds nothing has its own priority, also after timeouts |
| `PriorityInheritance.PiStart` | `src/ipc.c:527-546` | fresh mutexes and threads at their own priorities are a start of such runs |
| `PriorityInheritance.PiNextKeeps` | `src/ipc.c:718-725` | each step keeps this |
| `PriorityInheritance.PassedOnUrgent` | `src/ipc.c:839-857` | passing the mutex on keeps the owner most urgent if and only if the first waiter is the most urgent one |
| `PriorityInheritance.FifoInverts` | `src/ipc.c:86-90` | a run with RT_IPC_FLAG_FIFO after which a less urgent thread owns the mutex while a more urgent one waits |
| `PriorityRecord.RestoresRecorded` | `src/ipc.c:694-857` | in every run with any nesting, the recorded priority of a mutex is the one its owner had when it became the owner, and a thread that owns nothing has its own priority if and only if it had it when it got the mutex that it gave up last |
| `PriorityRecord.NextRecorded` | `src/ipc.c:651-878` | each take, grant, release and timeout keeps this |
| `PriorityRecord.BeginRecorded` | `src/ipc.c:527-546` | fresh mutexes and threads at their own priorities are a start of such runs, and of those of `NestingRestores` |
| `PriorityRecord.NestingRestores` | `src/ipc.c:694-857` | threads that give up last the mutex they got first always return to their own priority, however many they hold in between |
| `PriorityInheritance.TwoMutexesStick` | `src/ipc.c:694-697` | a run with two mutexes after which a thread holds nothing and keeps an inherited priority |
| `PriorityInheritance.NotTransitive` | `src/ipc.c:718-725` | a run in which the inherited priority is not passed on to the next owner of a chain |
| `PriorityChains.BlockUrgentAt` | `src/ipc.c:718-725` | a blocking take leaves the owner of every mutex at least as urgent as its waiters, except for the mutex for which the raised owner waits; there it does so if and only if the owner of that mutex is at least as urgent as the caller |
| `PriorityChains.ReleaseUrgent` | `src/ipc.c:830-857` | a release does so if and only if the first waiter is the most urgent one and the recorded priority is urgent enough for the waiters of the mutexes that the thread keeps |
| `PriorityChains.UrgentExactly` | `src/ipc.c:651-878` | in a run with any nesting and chains no thread ever waits for a less urgent owner if and only if every step meets its condition |
| `PriorityChains.StartUrgent` | `src/ipc.c:527-546` | fresh mutexes are a start of such runs |
| `EventFlags.RunKeeps` | `src/ipc.c:1026-1234` | in every reachable state no queued thread has its AND or OR condition met |
| `EventFlags.EventObject.Send` | `src/ipc.c:1026-1108` | the single pass over the wait list equals OR-ing in the flags and then a receive without waiting for every queued thread in list order; afterwards the old and the new flags are posted without those that the resumed clearing threads asked for, and each thread is resumed, and gets its flags out of that union, exactly if what those before it left satisfies it |
| `EventFlags.EventObject.Receive` | `src/ipc.c:1124-1226` | an error for no flags, the requested flags if the condition is met, and then they are cleared if asked for; otherwise the thread is in the wait list with its condition, or there is a timeout |
| `EventRuns.Conserved` | `src/ipc.c:1026-1234` | in every run a flag is posted exactly if it was posted at the start or by a send of the run and since then there was no reset and no satisfied clearing receiver that asked for it |
| `EventRuns.StepConserves` | `src/ipc.c:1026-1234` | the same for one step |
| `EventRuns.LeaveEffect` | `src/ipc.c:1246-1272` | a thread that times out leaves the list; a reset clears all flags and lets everybody go |
| `EventFlags.SendConserves` | `src/ipc.c:1040-1097` | what one send leaves posted and hands out, in terms of the old flags, the new ones and the resumed threads; the others keep their places |
| `EventFlags.ReplaySplits` | `src/ipc.c:1055-1097` | each queued thread stays queued or receives all flags it asked for, respectively at least one |
| `EventFlags.ReplayFacts` | `src/ipc.c:1055-1097` | flags are only taken away during the pass, so nobody left behind is satisfied at the end |
| `EventFlags.SameFlags` | `src/ipc.c:1061-1089` | the test, the flags handed out and the flags cleared are those of a receive |
| `Semaphore.RunKeeps` | `src/ipc.c:321-468` | in every run the initial value plus the releases equals the value plus the successful takes, a positive value means that nobody waits, thread timers run only for waiting threads, and so every blocked take ends exactly once, by a grant or by a timeout |
| `SemaphoreRuns.Conserved` | `src/ipc.c:321-468` | in every run the value at the start plus the releases of the run equals the value at the end plus the takes of the run that succeeded |
| `SemaphoreRuns.InOrder` | `src/ipc.c:79-122` | in every run the wait list is ordered by arrival, or by priority and arrival if waiting threads keep their priorities, and a thread timer runs exactly if its thread waits with a finite time |
| `SemaphoreRuns.GrantsFirst` | `src/ipc.c:451-456` | a release with threads waiting grants the semaphore to the one that comes before all others, and to nobody else |
| `Semaphore.TakeEffect` | `src/ipc.c:336-391` | one less, or nothing, or the caller waits, with its timer running exactly for a finite time, and nobody else moves |
| `Semaphore.ReleaseBalances` | `src/ipc.c:451-458` | a release keeps the balance if and only if the 16-bit value does not wrap around |
| `Semaphore.SemaphoreObject.Take` | `src/ipc.c:321-406` | success, timeout or suspension according to the value and the waiting time; the value falls by one exactly on success, and the caller is in the wait list exactly on suspension, with a timer exactly for a finite time |
| `Semaphore.SemaphoreObject.Release` | `src/ipc.c:430-468` | the first waiting thread leaves the list, or the value grows by one; the balance holds afterwards if and only if the value does not wrap around |
| `Semaphore.SemaphoreObject.Timeout` | `src/thread.c:744-766` | a thread whose timer expires is in the wait list and leaves it |
| `Bits.FfsIs` | `src/kservice.c:1170-1214` | __rt_ffs gives the number of the lowest one bit, counted from 1, and 0 for 0 |
| `Bits.TableIs` | `src/kservice.c:1170-1188` | every entry of the table is the lowest one bit of its index |
| `Scheduler.LookupIsTop` | `src/scheduler.c:158-180` | the find-first-set lookup, on one or two levels, is the linear search for the most urgent non-empty queue |
| `Scheduler.SetIndexOk` | `src/scheduler.c:656-660` | setting the bits of a priority keeps every bit in agreement with its queue |
| `Scheduler.ClearIndexOk` | `src/scheduler.c:743-754` | clearing them when the queue becomes empty does too |
| `Scheduler.GroupZero` | `src/scheduler.c:399-399` | the group word is zero exactly when no thread is queued |
| `SchedulerSpec.RunKeeps` | `src/scheduler.c:385-758` | in every run of startups, suspensions, resumptions, timeouts, priority changes, critical sections and schedules, each ready thread is running or queued at its priority, exactly once, and no other thread is queued |
| `SchedulerSpec.ScheduleMostUrgent` | `src/scheduler.c:385-482` | an unlocked rt_schedule leaves running a most urgent ready thread |
| `SchedulerSpec.ScheduleConserves` | `src/scheduler.c:417-473` | rt_schedule loses and duplicates no thread |
| `SchedulerSpec.RoundRobin` | `src/scheduler.c:385-482` | a thread with k threads ahead of it at the top priority runs within k + 1 calls of rt_schedule outside critical sections, whatever startups, timeouts, wake-ups, priority changes, suspensions and critical sections come between, if nothing more urgent becomes ready and its own priority stays |
| `SchedulerSpec.StepAdvances` | `src/scheduler.c:405-473` | no such step puts a thread in front of it, and each such call takes one away |
| `SchedulerSpec.ScheduleIs` | `src/scheduler.c:385-482` | a switch takes the first thread of the top queue and puts a still ready thread at the end of its own queue |
| `SchedulerEffects.BlockEffect` | `src/thread.c:656-691` | a suspension makes the running thread suspended and changes nothing else |
| `SchedulerEffects.WakeEffect` | `src/thread.c:701-735` | a resumption makes a suspended thread ready, last in its queue, and changes nothing else |
| `SchedulerEffects.ExpireEffect` | `src/thread.c:744-766` | a timeout makes the thread ready, and outside critical sections a most urgent thread runs |
| `SchedulerEffects.StartupEffect` | `src/thread.c:286-318` | a started thread is ready at the priority it was given |
| `SchedulerEffects.ChangeEffect` | `src/thread.c:571-612` | the priority becomes the new one, a ready thread goes to the end of that queue, and all other threads keep state, priority and order |
| `SchedulerEffects.CriticalEffect` | `src/scheduler.c:792-869` | critical sections change the nesting depth only, and leaving the outermost one lets a most urgent thread run |
| `SchedulerEffects.LeavesProcessor` | `src/scheduler.c:385-482` | rt_schedule takes the processor from a thread that is suspended |
| `SchedulerEffects.DoesNotRun` | `src/scheduler.c:385-482` | a suspended thread that is off the processor stays suspended and does not run in any run that neither resumes nor starts it nor lets it time out |
| `Scheduler.Ready.Highest` | `src/scheduler.c:158-180` | the most urgent non-empty queue |
| `Scheduler.Ready.InsertThread` | `src/scheduler.c:632-665` | the thread is queued last at its priority, unless it is the running one, and the bitmaps agree |
| `Scheduler.Ready.RemoveThread` | `src/scheduler.c:728-758` | the thread leaves its queue and the bitmaps agree |
| `Scheduler.Ready.Reschedule` | `src/scheduler.c:385-482` | rt_schedule on bitmaps does what scheduling on the queues does |
| `Scheduler.Ready.SuspendSelf` | `src/thread.c:656-691` | the running thread and no other becomes suspended and is in no queue; an error if it is not ready |
| `Scheduler.Ready.ResumeThread` | `src/thread.c:701-735` | a suspended thread becomes ready, last at its priority, and no other changes; an error for others |
| `Scheduler.Ready.Startup` | `src/thread.c:286-318` | a new thread becomes ready at its priority and may run at once |
| `Scheduler.Ready.Timeout` | `src/thread.c:744-766` | a suspended thread becomes ready and may run at once |
| `Scheduler.Ready.ChangePriority` | `src/thread.c:571-612` | the priority becomes the new one and a ready thread goes to the end of the queue of it; all others keep theirs |
| `Scheduler.Ready.EnterCritical` | `src/scheduler.c:792-807` | locking keeps everything else |
| `Scheduler.Ready.ExitCritical` | `src/scheduler.c:847-869` | the outermost unlock schedules |
| `SlabPages.FreeFacts` | `src/slab.c:286-317` | freeing keeps the page list sorted, disjoint and maximally merged, and adds exactly the pages |
| `SlabPages.AllocFacts` | `src/slab.c:246-264` | allocating does too, and takes exactly the pages |
| `SlabPages.Canonical` | `src/slab.c:286-317` | the page list is determined by the set of free pages |
| `SlabPages.FreeUndoesAlloc` | `src/slab.c:236-322` | freeing what was allocated restores the list |
| `SlabPages.PageHeap.Alloc` | `src/slab.c:236-270` | the lowest span that is large enough, or nothing if there is none |
| `SlabPages.PageHeap.Free` | `src/slab.c:272-322` | the pages join the span before, the span behind, both or none |
| `SlabZone.SmallestClass` | `src/slab.c:401-459` | a request is rounded to the smallest of the 72 chunk sizes that is large enough |
| `SlabZone.SameClass` | `src/slab.c:401-459` | requests share a zone index if and only if they are rounded to the same size |
| `SlabZone.TakeOk` | `src/slab.c:543-568` | taking a chunk makes exactly that chunk live and keeps z_nfree = (z_nmax - 1 - z_uindex) + length of the free list |
| `SlabZone.GiveOk` | `src/slab.c:830-842` | giving it back makes exactly that chunk free and keeps the equation |
| `SlabZone.ChunksApart` | `src/slab.c:556-568` | chunks of a zone do not overlap |
| `SlabZone.ChunkInside` | `src/slab.c:628-648` | chunks lie behind the header and inside the zone |
| `SlabZone.NewZoneOk` | `src/slab.c:625-648` | a new zone has exactly its first chunk in use and at least one free, and as many chunks as fit |
| `SlabZone.AlignedLikeZone` | `src/slab.c:631-638` | chunks of a power-of-two size have the remainder of their zone, wherever the heap starts |
| `SlabZone.PowerClass` | `src/slab.c:401-459` | powers of two are chunk sizes, from the smallest chunk on |
| `SlabHeap.SmallPowersAligned` | `src/slab.c:631-638` | power-of-two requests of up to a page are aligned to themselves |
| `SlabHeap.FirstChunk8192` | `src/slab.c:152-153` | but not 8192 bytes in heaps with zones of 64 KB or more, against the promise in the comment: the first such request is aligned if and only if the page behind the page table is even |
| `Slab.LookupFinds` | `src/slab.c:825-828` | the page table leads from every chunk in use back to its own zone |
| `Slab.UseApart` | `src/slab.c:478-667` | chunks in use never overlap, also across zones |
| `Slab.UseApartFromLarge` | `src/slab.c:493-521` | chunks in use and large allocations never overlap |
| `Slab.TakeKeeps` | `src/slab.c:539-577` | a chunk from an existing zone: exactly it becomes used, and full zones leave their list |
| `Slab.SetupKeeps` | `src/slab.c:590-652` | a zone set up for a class: exactly its first chunk becomes used |
| `Slab.GiveKeeps` | `src/slab.c:830-846` | exactly the freed chunk is no longer used, and zones with free chunks are listed |
| `Slab.RetireKeeps` | `src/slab.c:854-874` | only zones without used chunks are set aside |
| `Slab.ReleaseKeeps` | `src/slab.c:876-900` | a zone given back to the page allocator takes no used chunk with it |
| `SlabKeep.AllFreed` | `src/slab.c:848-874` | when no chunk is in use, each class has at most one zone |
| `SlabKeep.EmptyExactly` | `src/slab.c:854-855` | z_nfree equals z_nmax exactly if no chunk of the zone is in use |
| `SlabKeep.RetireTest` | `src/slab.c:854-855` | rt_free sets the zone aside exactly if the chunk was the only one of the zone in use and the class has another zone with a free chunk |
| `SlabHeap.Heap.constructor` | `src/slab.c:344-395` | the zone size for every heap size, and the first pages for the page table |
| `SlabHeap.Heap.Malloc` | `src/slab.c:478-667` | a chunk of the smallest class or whole pages that cover the request, not in use before; nothing else changes; failure if and only if the size is 0, or wraps around, or there is neither a chunk nor a long enough run of free pages; a power of two is aligned to itself if and only if the first page of its zone or pages is; every page stays free or in exactly one block; chunks come from the first listed zone, else from the first idle zone, else from new pages |
| `SlabHeap.Heap.Free` | `src/slab.c:771-904` | exactly the given chunk or pages are no longer in use; the zone leaves its class exactly if the chunk was the only one in use and the class has another zone with a free chunk, and then it is idle, or its pages are free if ZONE_RELEASE_THRESH zones are idle already; the idle zones stay at most that many, no class has two zones without chunks in use, and every page stays free or in exactly one block |
| `SlabHeap.Heap.AllBack` | `src/slab.c:848-900` | when everything has been given back, each class has at most one zone, at most ZONE_RELEASE_THRESH zones are idle, and all other pages behind the page table are free |
| `SlabHeap.PagesCover` | `src/slab.c:495-497` | a large request that wraps around asks for no pages and is refused; all others are covered, with less than a page to spare |

## Left out

- SMP variants, signals, soft timers, memory pools, device and module code, hooks, debug output, asserts as code, stack checks and context switches.
- FinSH byte and word types, character constants, casts, `&`, `++` and `--` of anything but a variable, assignment to anything but a variable or `*p`, system variables under `++` and `--`, the tokenizer, the parser and the FinSH heap; the division by zero and the shift by 32 or more that C leaves undefined give 0 or shift every bit out in the model. Memory is one word per address; words at unaligned addresses do not overlap.
- FinshLimits.ProgramBound: byte and word nodes are not in the model.
- Memheap.MemHeap.Realloc: sizes above 2^32 - 16 for a block with a free right neighbour are excluded, because there the test for growing in place wraps around (`GrowTestExact`) and the rebuilt header would overwrite that of the block (`GrowWraps`); allocating, copying and freeing in a moving reallocation are one step, here and in `SmallHeap.Heap.Realloc`.
- SmallHeap.Heap.Malloc: requests that fit a heap smaller than the minimum block are excluded, because for them the bound of the scan wraps around and the scan does not end (`ScanEndsExactly`).
- SmallHeap.Heap.Realloc: the same sizes are excluded, for the same reason.
- TimerSpec.CheckRearms: periodic timers have positive periods; for others see `TimerLoop`.
- SkipList.TimerList.Start: ticks between reading the clock and linking the timer, which `rt_timer_start` does in that order with interrupts enabled in between, and another start of the same timer before it is linked, are not modelled.
- SkipList.TimerList.Stop: `rt_timer_stop` clears the active flag after enabling interrupts; here it does so in the same step.
- SkipList.TimerList.Check: callbacks stop timers but start none, and the tick stands still during the check.
- MessageQueue.QueueObject.Take: `wait` says whether waiting time is left; the recalculation of the timeout from ticks is a parameter here, in `Mailbox` and in `EventFlags`, where a timeout can come at any time; the thread timers are modelled in `Semaphore` and `Mutex`.
- Semaphore.RunKeeps: resetting and deleting a semaphore, and deleting any IPC object with threads waiting on it.
- SlabHeap.Heap.Malloc: the calls of the page allocator inside `rt_malloc` and `rt_free` are taken together with them; the slab version of `rt_realloc` and the statistics are not modelled.
- EventFlags: a 32-bit word of flags is the set of its one bits; `rt_event_control` is a step of the machine only.
- The wait lists and ready queues are sequences; that the intrusive circular lists implement them is proved once, in `RingList`.
- Thread deletion, time slices and the idle thread.
