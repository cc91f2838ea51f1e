# A model of MemProf's profile builder, event engine, leak detector and stack stash

MemProf follows the allocations of a running program. Its library in the traced program reports every
`malloc`, `realloc` and `free` with a stack; the main program keeps a table of live blocks for each
process, looks for blocks that nothing points to, and folds the stacks of all blocks into call trees.
This project models the four files that do the bookkeeping and proves what their numbers mean.

* `Ledger.dfy` is the reference side of every counter. A ledger is a list of traces with sizes, and the
  weight of a ledger under a query is the sum of the sizes of the traces that satisfy it. No tree is
  mentioned there. Every counter of every tree below is specified as such a weight.
* `StackStash.dfy`, `StashTheorems.dfy`, `StashReplay.dfy`: the trie of addresses of `src/stackstash.c`,
  with its bit fields, sibling lists and address chains, its round trips, and `stack_stash_foreach`.
* `Events.dfy`, `EventTheorems.dfy`: the event engine of `src/process.c` on values: reordering by sequence
  number, the queue, the counters and the live heap. `Process.dfy` is the imperative engine, proved to do
  what those functions say, and the reference counts of blocks that processes share after a fork.
  `TraceView.dfy` reads the stacks of a process as values, a stash and a trace, instead of as nodes.
* `BlockSets.dfy`, `LeakDetect.dfy`, `LeakReport.dfy`, `LeakTheorems.dfy`: `src/leakdetect.c`, with the two
  callers in `src/main.c` that take over and give up its result. `HeapLeaks.dfy` says the same of a report
  in terms of addresses and sizes only. `Reachability.dfy` is the graph search that all of them mean.
* `World.dfy`: whole runs on values, with any number of processes, their windows and their stashes, some of
  them freed. `Session.dfy`: the program with its objects, proved to do over every run what the values say.
* `ProfileTree.dfy`, `Profiles.dfy`, `ProfileTheorems.dfy`: the call tree of `src/profile.c` and its rows of
  totals. `Callers.dfy`: the caller list. `Recursion.dfy`, `DescendantTree.dfy`, `Descendants.dfy`,
  `DescendantTheorems.dfy`: the descendant tree, in which recursion is taken out while stacks are walked.
  `ProfileReport.dfy` puts them together: from the block table to the callers and descendants of a row.
* `SymbolSearch.dfy`: from an address to a map and to a symbol.

Classes stand for the structures that the program updates in place. Links that are set once, when a node
is made, are constants; counters, child lists, tables, queues and marks are fields that methods change.
Each class carries ghost fields (the set of its nodes, the node of every path, a ledger of what was
added) and a `Valid` predicate that ties them to the real fields.

What turned out not to hold without a condition is stated with the condition:

* As soon as a number in the queue of a process is overdue, because it came too late or came twice, the
  queue is useless for good: a command is executed only if it is due at the moment it arrives, and all
  others are kept without effect (`EventTheorems.JammedIffOverdue`, `EventTheorems.JammedForever`). The
  process still moves exactly if the number that it waits for arrives (`EventTheorems.JammedMovesIff`).
* The traced program does not wait at a fork. The child is its parent with the child's own commands applied
  in order exactly if the server had brought the parent up to the fork when it duplicated it. If the
  parent was behind, the child stands still; if it had gone on, the child is jammed by its first command
  (`EventTheorems.ForkIsInOrderIff`).
* The table is the live heap all along a run exactly if new pointers are always fresh
  (`EventTheorems.RunIsLiveIff`).
* A reset of a process frees its stash, although a forked child may hold blocks with stacks of that stash,
  and, when a profile is reset, its own queue may hold commands with such stacks. No stack dangles over a
  run exactly if no reset of the run meets such a stack (`World.RunIsSoundIff`); both cases occur
  (`World.ForkAndExecOrphans`, `World.EarlyAndResetOrphans`). What is said below about the traces of
  blocks after a run depends on that condition.
* Reference counts stay exact over a run exactly if it never resets a window that has leaks on its list.
  Executing another program, resetting a profile and the end of a process all reset a window
  (`Session.Session.Perform`, with such a run in `World.LosingRunLoses`).
* On a machine with eight-byte words the leak detector reads beyond blocks of five bytes or more
  (`LeakTheorems.ReadsBeyondIff`). If a word cannot be read, the report is right exactly if no failed scan
  of a root or of a block that was found lost the way to a block that nothing else leads to
  (`LeakTheorems.ReportIsExactIff`); a root at the end of an area is an example where it is wrong
  (`LeakTheorems.FalseLeak`).
* The search for a symbol does not end when there is one symbol and the address is below it
  (`SymbolSearch.SearchEndsIff`).

Two branches of `add_trace_to_tree` are proved to be redundant or safe: the test of
`marked_non_recursive` before it is set always succeeds (`DescendantTree.DescendantTree.Mark`), and the
subtractions when a walk goes back never go below zero (`DescendantTree.DescendantTree.JumpBack`).

## Model

| member | source | states |
|---|---|---|
| `StackStash.WrapOnce` | src/stackstash.h:32-33 | Bit fields of 32 and 31 bits that are added to again and again hold the exact sum, cut off once. |
| `StackStash.WrapRange` | src/stackstash.h:32-33 | A wrapped number is the one below 2^32 or 2^31 that differs from the exact one by a multiple of that. |
| `StackStash.StackStash.FindInLevel` | src/stackstash.c:170-177 | The search along a sibling list finds a child exactly if the longer path has a node. |
| `StackStash.StackStash.IsToplevel` | src/stackstash.c:129-144 | A new node is toplevel exactly if none of its ancestors has its address. |
| `StackStash.StackStash.Insert` | src/stackstash.c:179-188 | A new node with empty counters is linked into sibling list, parent and address chain; all of these stay exact. |
| `StackStash.StackStash.AddTrace` | src/stackstash.c:152-199 | The trace and size go into the ledger that all totals and sizes account for, the node returned is the one node of that trace, and every node returned before keeps its trace. An empty trace changes nothing. |
| `StackStash.StackStash.FindNode` | src/stackstash.c:271-278 | The chain that starts at the node found holds every node with the address, and no other. |
| `StackStash.StackStash.Unref` | src/stackstash.c:256-262 | One reference to the stash is given up, and the stash stays valid exactly if that was not the last. |
| `StashTheorems.ClimbRebuilds` | src/stackstash.c:152-199 | Following parent links from the node of a trace gives back exactly the added addresses, innermost first. |
| `StashTheorems.SameNodeIffSameTrace` | src/stackstash.c:152-199 | Two traces have the same node if and only if they are equal. |
| `StashTheorems.SiblingsDiffer` | src/stackstash.c:170-188 | Different nodes in one sibling list have different addresses. |
| `StashTheorems.TotalsAddUp` | src/stackstash.c:165-196 | The exact total of a node is its own size and the totals of its children; the outermost nodes account for all traces. |
| `StashTheorems.FieldsAddUp` | src/stackstash.h:32-33 | The total field of a node equals its size field and the total fields of its children modulo 2^31, whatever has overflowed. |
| `StashTheorems.AddressTotal` | src/stackstash.c:125-150 | The totals of the toplevel nodes in the chain of an address sum to the sizes of all traces with the address, each counted once, however often it recurs. |
| `StashReplay.DoCallback` | src/stackstash.c:201-229 | Over a sibling list, one call for each trace at or below it with a size, with the right path and size, and no other call. |
| `StashReplay.Foreach` | src/stackstash.c:231-237 | stack_stash_foreach reports each trace with a nonzero size once and nothing else. |
| `StashReplay.CopyStash` | src/stackstash.c:201-237 | Adding what foreach reports to an empty stash gives every trace the same accumulated size modulo 2^31. |
| `Events.RunSettles` | src/process.c:522-599 | For distinct sequence numbers in any order, the state is in-order application of the longest run from the first number; the queue is sorted and holds exactly the rest. |
| `Events.OrderIsInvisible` | src/process.c:522-599 | Two arrival orders of the same commands give the same state, queue included. |
| `Events.AllArrived` | src/process.c:522-599 | When every number up to an end has arrived the queue is empty and all commands have been applied in order. |
| `Events.DrainShrinks` | src/process.c:597-598 | Draining never makes the queue longer, and draining again changes nothing. |
| `EventTheorems.ReceiveWaitsIff` | src/process.c:522-599 | One arrival keeps the queue free of overdue and doubled numbers exactly if its own number is neither. |
| `EventTheorems.RunWaitsIff` | src/process.c:65-103 | The queue stays good over a run exactly if the numbers are distinct and not below the first; lib/intercept.c:363 hands out such numbers. |
| `EventTheorems.JammedIffOverdue` | src/process.c:65-103 | After any run the first queued command is overdue if and only if some queued command is. |
| `EventTheorems.JammedForever` | src/process.c:85-103 | Once an overdue command is at the front of the queue the process behaves as if nothing were ever taken from it: the queue keeps all it holds and all that is not due on arrival, and only what is due on arrival is executed. |
| `EventTheorems.JammedMovesIff` | src/process.c:522-536 | Such a process still moves if and only if the number that it waits for arrives. |
| `EventTheorems.ForkMovesIff` | src/process.c:443-463 | Whatever arrives at a forked child, it executes something if and only if the number its parent waited for arrives at the child; else its table stands still. |
| `EventTheorems.ForkIsInOrderIff` | src/process.c:443-463 | With the commands of the child numbered from the fork on (lib/intercept.c:363, 381-396), the child ends in in-order application of them to the table of its parent if and only if its parent was at that number when it was duplicated; behind it the child stands still, beyond it the child is jammed. |
| `EventTheorems.RunCounts` | src/process.c:555-595 | After any commands in any order bytes_used is the sum of the sizes in the table and n_allocations their number, modulo 2^32. |
| `EventTheorems.CommandTable` | src/process.c:554-594 | A malloc, realloc or free takes the old pointer out of the table; the new one gets a block with the size and stack of the command, unless it is NULL or still in the table, and then the block that is there stays as it is. |
| `EventTheorems.CommandCounters` | src/process.c:563-592 | Modulo 2^32, bytes_used goes down by the size of the block that goes and up by that of the block that comes, and n_allocations by one each; a pointer that is seen twice is counted once. |
| `EventTheorems.OtherCommands` | src/process.c:544-554 | An exit changes nothing; a timer tick is recorded as one byte at the address of its number, unless there is a block already. |
| `EventTheorems.ApplyIsLiveIff` | src/process.c:537-595 | One command of any kind turns the table into the live heap if and only if the pointer it gets is fresh; freeing a pointer that is not live does no harm. |
| `EventTheorems.RunIsLiveIff` | src/process.c:522-599 | Whatever order commands of any kind arrive in, and whatever table and number a process starts with, the table is the abstract live heap after every executed command if and only if only fresh pointers were got. |
| `EventTheorems.SettledIsLiveIff` | src/process.c:522-599 | The same if and only if holds of every state that is in-order application of what was sent, whatever is in its queue: of a forked child and of a process whose profile was reset. |
| `EventTheorems.ClearSettles` | src/process.c:689-719 | Clearing the input of such a state leaves such a state, which starts from no blocks and has sent what is queued. |
| `EventTheorems.RunStaysSettled` | src/process.c:522-599 | Commands with new numbers, in any order, keep such a state in-order application of all that was sent. |
| `EventTheorems.ReceiveRecords` | src/process.c:581-594 | Every block in the table has the size and the stack of a command that was sent for its address. |
| `Process.Block.Unref` | src/process.c:109-115 | Only a block that has not been freed loses a reference, and it is freed exactly if that was the last. |
| `Process.MPProcess.MyTable` | src/process.c:109-115 | Nothing that is in the table of a process has been freed. |
| `Process.MPProcess.RemoveBlock` | src/process.c:565-567 | A block taken from the table loses the reference of the table, and all counts stay accounted for. |
| `Process.MPProcess.ReleasePtr` | src/process.c:558-571 | A pointer that is in the table is removed and subtracted from both counters; NULL and unknown pointers change nothing. |
| `Process.MPProcess.ObtainPtr` | src/process.c:581-594 | A pointer that is not in the table gets a block with its size, its stack and one reference and is counted; NULL and known pointers change nothing, and all blocks that were there stay the same objects. |
| `Events.InsertedCommands` | src/process.c:75-83 | Queueing a command adds that command and loses none. |
| `Events.InsertedBetween` | src/process.c:65-83 | A command is put behind all queued commands with smaller numbers and before the first that has not, and nothing else in the queue moves. |
| `EventTheorems.InsertedAscendingIff` | src/process.c:65-83 | The queue stays strictly sorted exactly if the number of the command is new to it. |
| `Process.MPProcess.UnqueueCommand` | src/process.c:85-103 | The first queued command is taken off exactly if it is due. |
| `Process.MPProcess.Exchange` | src/process.c:554-594 | The old pointer loses its block, and then the new one gets a block unless it is NULL or has one; every other entry of the table keeps its block. |
| `Process.MPProcess.Perform` | src/process.c:537-595 | The switch does that for malloc, realloc and free, adds one byte at the number for a timer tick, and does nothing for an exit. |
| `Process.MPProcess.ProcessCommand` | src/process.c:522-599 | The whole new state is that of the reordering engine, the reference counts of all blocks stay accounted for, and no other process changes; the mutual recursion with draining ends. |
| `Process.MPProcess.DrainQueue` | src/process.c:597-598 | The loop executes queued commands exactly while the first one is due. |
| `Process.MPProcess.Duplicate` | src/process.c:432-463 | The child shares the blocks, counters and number of its parent with one more reference on each block, but not its queue; the parent does not change. |
| `Process.MPProcess.FreeTable` | src/process.c:491-495 | Every block of the table loses one reference and the table is empty. |
| `Process.MPProcess.Reinit` | src/process.c:465-504 | The process is as new, with nothing queued, and reference counts stay accounted for; its stash is given up by `Session.Session.RenewStash`. |
| `Process.MPProcess.ClearInput` | src/process.c:689-713 | Blocks and counters are forgotten; sequence number and queue go on, although `Session.Session.RenewStash` gives up the stash that queued stacks lie in. |
| `Process.NewProcess` | src/process.c:820-866 | A new process holds no block. |
| `Process.MPServer.FreedIffNoHolder` | src/process.c:109-115 | A block is freed exactly if no table and no leak list holds it and no reset has dropped it. |
| `BlockSets.ListBytesOfSet` | src/profile.c:187-192 | Adding up a list without repetitions gives the bytes of the set of its blocks. |
| `BlockSets.TableBytes` | src/process.c:1021-1033 | The bytes of the heap that a table describes are those of the blocks in it. |
| `LeakDetect.FindBlock` | src/leakdetect.c:288-326 | Binary search returns the block with the greatest start not above the address if that block contains it, and otherwise nothing. |
| `LeakDetect.HitIsContaining` | src/leakdetect.c:288-326 | If blocks do not overlap, that block is simply the one that contains the address. |
| `LeakDetect.ScanBlockContents` | src/leakdetect.c:328-349 | Every complete word of a block marks the block it points into; exactly the newly marked blocks go on the list, once each, and none is a root. |
| `LeakDetect.ScanBlock` | src/leakdetect.c:351-382 | A block with an unreadable word marks nothing; any other block marks exactly its targets. |
| `LeakDetect.Mark` | src/leakdetect.c:443-457 | The worklist ends, and the marked blocks are exactly those that can be reached from the roots. |
| `LeakReport.PrepareBlocks` | src/leakdetect.c:39-48 | Every block of the table is unmarked and has one more reference. |
| `LeakReport.SortedBlocks` | src/leakdetect.c:427-431 | The array holds the blocks of the table, each once, in the order of their addresses. |
| `LeakReport.MakeRoots` | src/leakdetect.c:264-278 | One root block for each area of memory. |
| `LeakReport.Collect` | src/leakdetect.c:464-471 | The result is the unmarked blocks, each once, and exactly the marked ones lose the reference they were given. |
| `LeakReport.LeaksFind` | src/leakdetect.c:384-493 | leaks_find returns exactly the blocks of the table that the roots do not reach; each block is either marked or reported, and a reference is added for the reported ones only. |
| `LeakReport.ReleaseLeaks` | src/main.c:1160-1163 | The window lets go of every block on its leak list. |
| `LeakReport.UsageLeaked` | src/main.c:1166-1171 | The usage shown is the sum of the sizes of the leaks modulo 2^32. |
| `LeakReport.GenerateLeak` | src/main.c:1149-1177 | After a report the window holds exactly the leaked blocks and every reference is accounted for. |
| `LeakReport.WindowReset` | src/main.c:934-943 | A reset drops the list but not its references: counts stay exact if and only if they were and the list was empty. |
| `LeakTheorems.LeakedAndReachableBytes` | src/leakdetect.c:464-471 | Bytes leaked and bytes reachable make up the bytes in use, modulo 2^32. |
| `LeakTheorems.TargetIff` | src/leakdetect.c:328-382 | A scan finds a block if and only if every word it reads can be read (one for every four bytes of the block, from its start on) and some aligned word that lies wholly in the scanned block points into the block found. |
| `LeakTheorems.ShownIsNotLeaked` | src/leakdetect.c:443-471 | Nothing is reported that such a word of a root, or of a block that is not reported, points to. |
| `LeakTheorems.OthersAreLeaked` | src/leakdetect.c:443-471 | Everything else is reported: the blocks that are not reported are in every set of blocks that has what such words of the roots and of its own blocks point to. |
| `LeakTheorems.ReadsBeyondIff` | src/leakdetect.c:358-367 | The scan of a block fails without some word behind the block if and only if words have eight bytes and the block five or more. |
| `LeakTheorems.ReachableIsTrue` | src/leakdetect.c:443-457 | Nothing is called reachable that no chain of readable pointers reaches. |
| `LeakTheorems.ReportIsExactIff` | src/leakdetect.c:361-471 | The report lists exactly the blocks that no chain of readable pointers reaches if and only if no failed scan of a root or found block lost the way to a block that was not found otherwise. |
| `LeakTheorems.ReadableReportIsExact` | src/leakdetect.c:361-375 | It does whenever every word that a scan would read can be read, which can be checked before. |
| `LeakTheorems.FalseLeak` | src/leakdetect.c:358-375 | With eight-byte words, a root of one pointer that ends with the last page of an area has its block reported as leaked. |
| `HeapLeaks.LeakedSame` | src/leakdetect.c:384-493 | Which addresses are reported depends only on the sizes in the heap, the areas of roots and the memory. |
| `TraceView.MapReceive` | src/process.c:522-599 | The engine does the same to a process however its stacks are read: it never looks at one. |
| `World.ProcessesAreIndependent` | src/process.c:432-463 | Over any run each process and its leak list, apart from stacks, is what its own events make of it; a free in a forked child never changes the table or counters of its parent. |
| `World.StepIsSoundIff` | src/process.c:491-500 | From a world in which no stack dangles, one event leaves one or more dangling if and only if it resets a process of which a stack is in the table, the queue or the leak list of another one, or, for a profile reset, in its own queue. |
| `World.RunIsSoundIff` | src/process.c:709-718 | No table, queue or leak list holds a stack of a freed stash throughout a run if and only if no event of the run does that. |
| `World.TracesAreIndependent` | src/process.c:432-463 | If none does, every pointer to a stack can be followed, and each process is what its own events make of it, traces included. |
| `World.RunDelivers` | src/process.c:602-664 | Between two resets a process is what its engine makes of all commands that were delivered to it, with the whole stacks they were sent with, in the order of arrival. |
| `World.LiveUntilReset` | src/process.c:522-599 | From where nothing is queued until the next reset, the table of a process in any run is in-order application of what was delivered, and the live heap of the traced program after every executed command if and only if that got only fresh pointers. |
| `World.ForkAndExecOrphans` | src/process.c:497-500 | There is a run that leaves a stack dangling: a process forks and executes another program, and its child still has a block that it got before. |
| `World.EarlyAndResetOrphans` | src/process.c:715-718 | There is another: a command comes early, the profile is reset, and when the missing command arrives a block is made with the stack of the early one. |
| `World.BlocksAreSent` | src/process.c:602-664 | After any run every block of every process, inherited or not, has the size of a command that was sent for its address; its stack is the trace of that command unless it dangles, and none dangles if no reset of the run orphans a stack. |
| `World.LosingRunLoses` | src/main.c:934-939 | There is a run that makes counts inexact: a leak is reported, and then the process executes another program. |
| `Session.Session.StackFor` | src/process.c:627-642 | There is no stack for an exit or an empty list; else climbing from the node gives exactly the addresses that were read, innermost first, and the node lies in the stash of the process. |
| `Session.Session.RenewStash` | src/process.c:497-513 | The stash of a process is freed and it gets another, with a number of its own; no other stash is touched. |
| `Session.Session.RestartAt` | src/process.c:515-520 | process_exec_reset makes the process as new, frees its stash whoever holds its stacks, and resets its window; counts stay exact exactly if the window listed nothing. |
| `Session.Session.ClearAt` | src/main.c:1213-1222 | Resetting a profile resets the window, forgets blocks and counters and frees the stash, but keeps number and queue; counts stay exact exactly if the window listed nothing. |
| `Session.Session.Step` | src/process.c:522-599 | Any event keeps references accounted for, changes no other process or window, frees the stash of a process exactly if it resets it, and makes counts inexact exactly if it resets a window with leaks. |
| `Session.Session.Perform` | src/process.c:432-463 | Over every run of commands, forks, starts, resets and leak reports, counters are those of the tables, every leak list is the one the heap says, exactly the stashes of processes that were reset are freed, and every reference count is the number of holders if and only if it was before and no window with leaks was reset. |
| `ProfileTree.CreateStackList` | src/profile.c:26-43 | The list holds exactly the nodes met when climbing from the node of the block whose functions are not skipped, from the outermost in. |
| `ProfileTree.FilteredJoins` | src/profile.c:30-40 | What is kept of a stack is what is kept of its outer part, and inside it what is kept of the rest: a skipped frame cuts nothing off. |
| `ProfileTree.FilteredFrame` | src/profile.c:34-37 | One frame becomes the function of its address if that is not skipped, and nothing if it is. |
| `ProfileTree.Profile.FindMatch` | src/profile.c:62-68 | A child for the symbol is found exactly if the longer path has a node. |
| `ProfileTree.Profile.Insert` | src/profile.c:70-96 | A new node is toplevel exactly if its symbol is not further out on the stack, and child arrays and symbol chains stay exact. |
| `ProfileTree.Profile.AddStackTrace` | src/profile.c:45-109 | A filtered stack adds its size to the total of every node on it and to self of the last; an empty one changes no node. |
| `Profiles.BuildTree` | src/profile.c:111-132 | Every block of the list has been added with its filtered stack and its size. |
| `Profiles.ChainStep` | src/profile.c:148-155 | Counting one more node of a symbol adds disjoint stacks: no stack is counted twice under recursion. |
| `Profiles.AddFunction` | src/profile.c:134-158 | A row has the weight of the stacks with the function on them, each once, and of those that end in it. |
| `Profiles.LoggedWeight` | src/profile.c:111-132 | Whatever is asked of the stacks in the tree, the answer is the bytes of the blocks that match. |
| `Profiles.CreateProfile` | src/profile.c:168-198 | The tree accounts for all blocks of the table, every function has one row with its sums that leads to all its nodes, and n_bytes is the sum of the sizes. |
| `ProfileTheorems.FunctionTotals` | src/profile.c:134-158 | func.total is the bytes of blocks whose filtered stack mentions the function, each counted once, and func.self of those whose innermost unskipped frame it is. |
| `ProfileTheorems.NoRowNoBytes` | src/profile.c:194-194 | A function without a row is on the stack of no bytes. |
| `ProfileTheorems.SelfValuesAddUp` | src/profile.c:134-198 | All self values and the bytes of blocks whose whole stack was skipped sum to n_bytes. |
| `ProfileTheorems.SameBytes` | src/profile.c:187-192 | n_bytes is bytes_used of the process, modulo 2^32. |
| `ProfileTheorems.CountersFit` | src/profile.c:100-102 | No counter of a node or row exceeds n_bytes, and self never exceeds total. |
| `ProfileTheorems.TotalsAddUp` | src/profile.c:100-102 | The total of a node is its self value and the totals of its children. |
| `Callers.TopCall` | src/profile.c:490-501 | The loop finds the outermost pair of nodes identical to a node and its parent. |
| `Callers.FindCallers` | src/profile.c:445-473 | One row for every caller above a node of the function, and one for nobody exactly if the function has a node without a parent. |
| `Callers.SumsStep` | src/profile.c:475-511 | One more node adds to the row of its caller exactly the stacks that were not counted there yet. |
| `Callers.AddCalls` | src/profile.c:475-511 | After the second loop every row has the sums over all nodes of the function. |
| `Callers.CreateCallerList` | src/profile.c:434-517 | The total of a caller is the weight of the stacks on which it calls the function, each once under recursion, and self that of the stacks that end in such a call; no caller has two rows, and who has none never calls it. |
| `Callers.CallerBytes` | src/profile.c:434-517 | The total of a caller is the bytes of the blocks on whose stack it calls the function, each counted once, and self of those allocated in such a call. |
| `Callers.CallerBounds` | src/profile.c:434-517 | No caller has more than the function, nor more self than total. |
| `Callers.CallerSelfValuesAddUp` | src/profile.c:509-510 | The self values of all callers sum to the self value of the function. |
| `Recursion.CollapseIsSimple` | src/profile.c:269-294 | Walking with jumps back leaves a path that repeats no function and ends in the last function of the stack. |
| `Recursion.CollapseKeepsSimple` | src/profile.c:269-294 | A stack is left as it is exactly if it has no recursion. |
| `Recursion.HasIsVisited` | src/profile.c:253-336 | A function is on a stack exactly if the walk comes to a node of that function. |
| `Recursion.VisitedIff` | src/profile.c:253-336 | The walk comes to a place if and only if it is where some beginning of the stack leads. |
| `Recursion.CollapseIsLoopErasure` | src/profile.c:269-294 | Jumping back frame by frame gives what cutting each function to its last occurrence gives, from the outside in. |
| `DescendantTree.DescendantTree.FindMatch` | src/profile.c:259-265 | A child for the symbol is found exactly if the longer path has a node. |
| `DescendantTree.DescendantTree.JumpBack` | src/profile.c:279-283 | Going back takes the size and the mark off exactly the nodes that are left, and no counter drops below zero. |
| `DescendantTree.DescendantTree.RebuildSeen` | src/profile.c:287-292 | The rebuilt table finds, for every function on the current path, its node there. |
| `DescendantTree.DescendantTree.FindPlace` | src/profile.c:257-311 | The next node is the child, the node on the current path, or a new child, and the books are right for it. |
| `DescendantTree.DescendantTree.Mark` | src/profile.c:313-318 | marked_non_recursive is one exactly on the current path; a node that is arrived at is never marked yet. |
| `DescendantTree.DescendantTree.MarkTotal` | src/profile.c:320-327 | A trace adds to the total of a node at most once. |
| `DescendantTree.DescendantTree.Unmark` | src/profile.c:340-345 | No node stays marked as non-recursive. |
| `DescendantTree.DescendantTree.UnmarkTotals` | src/profile.c:347-352 | No node stays marked as counted. |
| `DescendantTree.DescendantTree.AddTrace` | src/profile.c:242-355 | One trace adds its size to total wherever its walk has been, to non_recursion on the path where it stops, and to self where it stops; all marks are cleared. |
| `Descendants.NodeListLeaves` | src/profile.c:230-240 | The list gets every node at or below a node with a size of its own, once. |
| `Descendants.TraceOf` | src/profile.c:370-371 | The trace is the path of the leaf from the top node on: inside of what is above the top node it gives the whole path of the leaf. |
| `Descendants.FromIsRest` | src/profile.c:357-401 | A stack seen from a function is the one path that, put inside of what is outside the outermost call of the function, gives the whole stack: no frame is lost. |
| `Descendants.AddLeafToTree` | src/profile.c:357-376 | The tree is given that trace with the self value of the leaf. |
| `Descendants.NextTop` | src/profile.c:386-398 | Leaves below different outermost calls of a function are different, so that none is added twice. |
| `Descendants.CreateDescendantTree` | src/profile.c:378-401 | Whatever is asked of the traces in the tree, the answer is that for the stacks with the function, seen from its outermost call. |
| `DescendantTheorems.NonRecursionIsSubtree` | src/profile.c:279-318 | non_recursion of a node is the sum of the self values at and below it. |
| `DescendantTheorems.TotalsShrink` | src/profile.c:242-355 | No path repeats a function, self is at most non_recursion and that at most total, and no node has more than its parent. |
| `DescendantTheorems.OneRoot` | src/profile.c:378-401 | A function with a total has one root, itself, with total and non_recursion both equal to it; any other function has none. |
| `DescendantTheorems.NodeTotals` | src/profile.c:242-401 | total, self and non_recursion of a node are the bytes of the blocks whose stack, without recursion, comes through it, stops in it, or stops at or below it. |
| `DescendantTheorems.NodeHasTotal` | src/profile.c:320-327 | Every node of the tree has a total. |
| `DescendantTheorems.StepsAreRealCalls` | src/profile.c:242-355 | A node hangs below another only where the upper function calls the lower one on some profiled stack, and its total is above zero and at most the bytes of the stacks on which it does. |
| `ProfileReport.Explain` | src/profile.c:168-198 | From the block table of a process, all rows, the callers of a selected row and its descendants count the bytes of the blocks they stand for. |
| `ProfileReport.StackIsWhatWasSent` | src/profile.c:26-43 | In a session, the stack of a block that does not dangle lies in a stash that has not been freed, and profiles as the trace that was sent with the command that got the block, without the skipped functions. |
| `ProfileReport.StacksAfterRun` | src/profile.c:26-43 | After every run of a session that orphans no stack, this is so of every block of every process. |
| `SymbolSearch.SearchEndsIff` | src/process.c:312-329 | The search ends if and only if there are two symbols or the address is not below the only one. |
| `SymbolSearch.MiddleIsBetween` | src/process.c:322-322 | The middle of the range is halfway between its ends. |
| `SymbolSearch.RangeShrinks` | src/process.c:321-327 | With two symbols or more the range gets smaller in every round. |
| `SymbolSearch.Search` | src/process.c:312-347 | Binary search returns the last symbol at or below the address, or the first one if the address is below all of them. |
| `SymbolSearch.LocateMap` | src/process.c:249-266 | The map that is found contains the address and no map before it on the list does; if none is found, none does. |
| `SymbolSearch.LocateSymbol` | src/process.c:294-348 | The first map with the address answers: with the last symbol that starts at or below the address, after the symbols of a map with do_offset are moved to where the map is (or the first symbol, if all start above); with its own name if it has no symbols. "<unknown map>" if no map contains the address. |

## Left out

- stack_stash_set_root, build_hash_table, stack_node_foreach_trace and stack_stash_get_root of src/stackstash.c: nothing in the program calls them.
- The node allocator (src/stackstash.c:33-67): memory management only. A stash that has been freed has the reference count zero and its nodes may not be followed; that they are overwritten later is not modelled.
- World.TracesAreIndependent: what the program does when it follows a stack that dangles is undefined; the model only says exactly when that cannot happen.
- Session.Session.RenewStash: the next stash is made at once and not when the next command arrives (src/process.c:506-513); until then it is empty and nothing refers to it.
- The back links that do_callback sets in the list cells (src/stackstash.c:206-211, 227-228): the trace is a sequence here.
- Process.Block.Unref: a freed block is one whose count is zero; its memory is not reused.
- Sequence numbers are natural numbers: wrapping after 2^32 events is not modelled. Addresses and sizes added to them do not wrap.
- MI_NEW, MI_FORK, MI_CLONE and MI_EXEC never reach process_command (src/process.c:537-541); src/server.c answers them, and forks and resets are separate operations here.
- ProfileTree.Profile.AddStackTrace: the counters are natural numbers without a 32-bit limit; `ProfileTheorems.CountersFit` bounds them by the number of bytes profiled, so that they fit whenever that number does.
- DescendantTree.DescendantTree.AddTrace: the counters have no 32-bit limit either; `DescendantTheorems.TotalsShrink` and `DescendantTheorems.OneRoot` bound them by the total of the function.
- EventTheorems.RunIsLiveIff: a timer tick counts as getting one byte at the address of its number, as the table records it.
- g_hash_table iteration order is arbitrary; qsort and g_list_insert_sorted are replaced by a selection and an insertion with the same result. An absent block table is an empty one.
- Symbols are given to the profile as a table from addresses to interned symbols; a NULL symbol does not occur.
- SymbolSearch.Search: symbol arrays of more than 2^31 entries, for which first + last would wrap, are excluded.
- SymbolSearch.LocateSymbol: reading /proc maps again after a miss, the list of bad pages, and the preparation of a map with its sorting of symbols are not part of this model; the maps are given with sorted symbols.
- read_stack_maps, process_sections and stopping the traced program: the areas of memory are parameters, and memory is a partial map from addresses to words of four or eight bytes.
- Clones share the process structure in the program, and each has a stash of its own; the model has one process and one stash for all of them.
- Session.Session.FinishAt: when a process ends its window is reset or destroyed, which loses its leak list either way; the process itself keeps the reference that mp_process_init takes (src/process.c:841) and is never finalized. A window whose process has ended is still accepted by later events of the model.
- ProcessWindow: a window belongs to one process for good; a window that is reused for a new process (src/main.c:999-1004) is a new window here.
- Windows, drawing, saving of reports, status texts, warnings, sockets, signal handlers, timers and the code that is injected into the traced program: foreign calls or formatting.
