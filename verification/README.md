# A verified model of the YOYOW core

This project models the parts of the node and its contract library whose correctness is hardest to see, and
proves what they promise. `dafny verify dfyconfig.toml` checks the whole of it.

| files | what they model |
|---|---|
| `Words`, `HeapBlocks`, `HeapMemory`, `HeapRegions`, `MemoryManager`, `HeapExamples` | the contract heap allocator: headers in linear memory, bump allocation, first fit with merging and splitting, realloc, growth by pages |
| `UndoState`, `UndoDatabase` | the undo database: what a session remembers, undoing and merging sessions |
| `ChainState`, `ForkTree`, `BlockReplay` | what a block does to the objects, the tree of known blocks, and replaying blocks |
| `ChainNode`, `ForkSwitch`, `BlockPush`, `ChainDatabase`, `ChainExamples` | pushing blocks, popping them, and switching forks over an undo stack: as functions of the state of a node, and the methods that compute them |
| `BlockGeneration` | building a block out of pending transactions and applying it again |
| `AbiTypes`, `AbiSerializer`, `AbiCodec`, `AbiParts`, `AbiRoundTrip` | loading an ABI, resolving typedefs, encoding and decoding variants, and when that loses values |
| `TableObjects`, `IteratorCache`, `TableViews`, `ApplyContext` | contract tables on the host, their iterators, and the bytes billed for them |
| `TableMirror`, `MultiIndex` | the contract's cache over its tables, with secondary indices |
| `Varint`, `Packing`, `Datastream` | packing contract values into bytes |
| `PowersOfTwo`, `Rounding`, `FloatConversion` | 128-bit integers to double precision and back |
| `CoinSeconds` | coin-seconds earned by locked balances, and collecting them |
| `Ledger`, `Advertising` | balances; advertising orders with escrow |
| `ContentShares` | shares in a post, and splitting rewards by them |
| `Synopsis` | block synopses exchanged with peers |
| `Amounts` | asset amounts as decimal strings |
| `Options`, `Lists`, `Arithmetic` | what the others share |

Code that updates objects in place is a class with the same fields and methods that update them; its loops are
loops here. Each such method is proved against functions of values, and the lemmas are about those functions.
Invariants (`Valid`) hold over every run of the methods.

## Where the code does not keep a promise

Each of these is kept in the model as the code has it, with an input that shows it where one is needed, and a
lemma that says exactly when it goes well.

- The typedef check for circles is not redundant. A struct may be named with a suffix, such as `x[]`, without `x`
  being a type; then a typedef can shadow it and circles can be declared (`AbiTypes.CircularExample`). It cannot
  happen exactly when every struct name is a type (`AbiTypes.CircularExact`).
- A contract call billed zero microseconds is measured again on replay, so its transaction replays on every node
  exactly when no recorded time is zero (`BlockGeneration.ReplayExact`).
- Pushing a block is not all or nothing when a switch to a longer fork fails: the new branch is popped through the
  fork database and an undo history that may both have been cut short by then. The objects are as they were exactly
  under the condition in `BlockPush.AllOrNothing`, that all the blocks that applied come off again, or all but the
  old head. How many come off is told from what became irreversible and which blocks are known
  (`ForkSwitch.TakenBackExact`); `ChainExamples.PushStranded` is a run that ends otherwise.
- A longer fork is not always switched to. A block that extends the head and throws is taken out of the fork
  database but stays its head, and the block that completes a fork of the same height is then thrown away
  (`BlockPush.StaleHeadCosts`, `ChainExamples.PushLost`). The switch is made exactly when that block is higher than
  the head of the fork database, or is that head (`BlockPush.SwitchMadeExact`).
- The signed variable-length reader is right exactly on 31-bit values (`Varint.SignedExact`), and values of types
  without sets and maps come back exactly if they hold no others (`Packing.UnpackPack`).
- The 32-bit bounds tests of the allocator are right exactly when they do not wrap (`MemoryManager.AdjustMeaning`,
  `MemoryManager.BumpTestExact`, `HeapMemory.RoomTestExact`), and growing by merging on a heap with uncarved space
  can run past the carved part (`HeapExamples.HoleReached`): it finds what it should exactly when growth is safe
  (`HeapMemory.WalkExact`).
- Memory is meant to grow by a kilobyte or more. On a page with an odd number of which less is left it grows by that
  little (`MemoryManager.HeapAdjMeaning`); it does not come to that, as memory always ends with a page.
- A buyout that changes the share of the platform blocks every later buyout of that post
  (`ContentShares.TradeValidates`).
- The encoder knows no optional structs, but the decoder does, and a struct may be named `x?`; and the encoder takes
  a base for whatever its name says. So an accepted ABI can lose values (`AbiRoundTrip.OptionalStructLost`). It loses
  none exactly when no struct in use has such a name or such a base (`AbiRoundTrip.RoundTripExact`).
- The encoder writes nothing for a struct given as an empty array, a null or a scalar (`AbiCodec.EmptyArrayLost`).
  What is given for a struct comes back exactly if it is an object or a non-empty array (`AbiCodec.StructGivenExact`).
- A synopsis entry that the peer knows from a fork higher than its chain makes it throw instead of answering, and
  nothing else does (`Synopsis.PeerAnswers`).
- The number of remaining ids is exact for every limit but zero (`Synopsis.GetBlockIds`).

## Model

| member | source | states |
|---|---|---|
| `HeapBlocks.FromFreedTiles` | contracts/graphenelib/graphenelib.cpp:283-306 | First fit over a chain of blocks, with merging and splitting, leaves a chain of the same span whose block sizes are all 4 mod 8. |
| `HeapBlocks.FromFreedLive` | contracts/graphenelib/graphenelib.cpp:283-306 | First fit makes exactly one block live that was not, of the requested size, and changes no other live block; if it fails, the live blocks stay. |
| `HeapBlocks.FromFreedFailsIffNoRun` | contracts/graphenelib/graphenelib.cpp:283-306 | First fit fails if and only if no maximal run of adjacent free blocks, headers absorbed, is as large as the request. |
| `HeapBlocks.FirstFit` | contracts/graphenelib/graphenelib.cpp:283-306 | First fit: the block handed out starts a run of free blocks that is large enough, and no run before it is. |
| `HeapBlocks.FailedSearchStays` | contracts/graphenelib/graphenelib.cpp:283-306 | A failed search leaves the largest run of free blocks as large as it was, so failing is stable. |
| `HeapBlocks.LiveDisjoint` | contracts/graphenelib/graphenelib.cpp:385-491 | Two live blocks of a chain never overlap. |
| `HeapBlocks.AbsorbMeaning` | contracts/graphenelib/graphenelib.cpp:459-491 | Merging stops at the first allocated block or as soon as the request is met; span and block sizes are kept. |
| `HeapMemory.WalkExact` | contracts/graphenelib/graphenelib.cpp:459-491 | For every chain, live block and size for which the walk over free neighbours is made: it comes to what the chain says if and only if growth is safe, which means that the heap is carved to its end, or the walk ends inside the carved part, or the word after the carved part carries the allocation flag. |
| `HeapMemory.SafeCases` | contracts/graphenelib/graphenelib.cpp:308-354 | Shrinking is safe, so is a request that is refused at once, and so is any on a fully carved heap; the last block may grow up to the address where the heap ends. |
| `HeapMemory.UncarvedGrowthOverlaps` | contracts/graphenelib/graphenelib.cpp:308-354 | Whenever an unsafe walk finds enough, the grown block covers the start of what the next bump allocation hands out. |
| `HeapExamples.HoleReached` | contracts/graphenelib/graphenelib.cpp:308-354 | A run of the manager, on its first heap: after two mallocs of 4 and a free of the second, growing the first to 20 is unsafe, the walk finds room for it, and the next block is carved from inside these 20 bytes. |
| `HeapMemory.RoomTestExact` | contracts/graphenelib/graphenelib.cpp:322-326 | The 32-bit test for room at the end of the heap is right if and only if the size does not exceed the end address. |
| `HeapMemory.Memory.Init` | contracts/graphenelib/graphenelib.cpp:246-250 | An empty heap on a stretch of memory: nothing carved. |
| `HeapMemory.Memory.SetSize` | contracts/graphenelib/graphenelib.cpp:416-422 | Writing a size keeps the allocation flag of the header and changes no other byte. |
| `HeapMemory.Memory.Mark` | contracts/graphenelib/graphenelib.cpp:434-442 | Marking changes only the flag of one header. |
| `HeapMemory.Memory.Describe` | contracts/graphenelib/graphenelib.cpp:395-400 | A header is written whole: size and flag, four bytes, nothing else. |
| `HeapMemory.Memory.Malloc` | contracts/graphenelib/graphenelib.cpp:269-281 | Bump allocation appends one allocated block, or fails exactly when it does not fit; headers keep tiling the carved part and no live byte changes. |
| `HeapMemory.Memory.CleanupRemaining` | contracts/graphenelib/graphenelib.cpp:362-372 | The uncarved rest becomes one free block, so that headers tile the whole heap. |
| `HeapMemory.Memory.MergeContiguous` | contracts/graphenelib/graphenelib.cpp:459-491 | What the header walk writes is the merged chain with its remainder split off; all-or-nothing leaves a block that cannot reach the size untouched. |
| `HeapMemory.Memory.MallocFromFreed` | contracts/graphenelib/graphenelib.cpp:283-306 | The header walk over a fully carved heap computes first fit on the chain, and no live byte changes. |
| `HeapMemory.Memory.Free` | contracts/graphenelib/graphenelib.cpp:356-360 | Exactly one block stops being live; no live byte changes. |
| `HeapMemory.Memory.Shrink` | contracts/graphenelib/graphenelib.cpp:328-336 | A block asked to shrink keeps its size; the header for the excess lands inside the block itself, behind the bytes that are kept. |
| `HeapMemory.Memory.GrowLast` | contracts/graphenelib/graphenelib.cpp:337-344 | The last block grows over uncarved space only. |
| `HeapMemory.Memory.GrowMerged` | contracts/graphenelib/graphenelib.cpp:345-353 | A block grows over the free blocks behind it, all or nothing, exactly when they are large enough; stated wherever growth is safe. |
| `HeapMemory.Memory.ReallocInPlace` | contracts/graphenelib/graphenelib.cpp:308-354 | Wherever growth is safe: stays in place exactly when there is room, and then the block has at least the size, its first bytes are kept and every other live block is untouched; otherwise nothing changes. |
| `HeapMemory.Memory.ExpandMemory` | contracts/graphenelib/graphenelib.cpp:374-382 | A heap takes over new memory exactly when that memory continues it. |
| `MemoryManager.AdjustMeaning` | contracts/graphenelib/graphenelib.cpp:227-234 | Rounding gives a size that is 4 mod 8, and one not below the request if and only if the 32-bit sum does not wrap. |
| `MemoryManager.BumpTestExact` | contracts/graphenelib/graphenelib.cpp:269-275 | The 32-bit bounds test of bump allocation is right if and only if the sum does not wrap. |
| `MemoryManager.MemoryManager.constructor` | contracts/graphenelib/graphenelib.cpp:60-67 | All sixteen heap slots start blank. |
| `MemoryManager.MemoryManager.Sbrk` | contracts/graphenelib/graphenelib.cpp:4-37 | Memory is reserved in whole pages, exactly when the pages are there; the address returned is the old end. |
| `MemoryManager.MemoryManager.NextActiveHeap` | contracts/graphenelib/graphenelib.cpp:72-109 | The active heap grows by a page, or a second heap opens on it; when memory cannot grow every heap is carved to its end. At most two heaps are ever in use. |
| `MemoryManager.MemoryManager.ReservePage` | contracts/graphenelib/graphenelib.cpp:77-89 | The next page is reserved; memory that starts on a page boundary stays so. |
| `MemoryManager.HeapAdjMeaning` | contracts/graphenelib/graphenelib.cpp:83-88 | Memory ends with a page after growing; it grows by at least a kilobyte, unless less than that is left of a page with an odd number. |
| `MemoryManager.MemoryManager.Malloc` | contracts/graphenelib/graphenelib.cpp:111-166 | Over every run: a block of the rounded size, right above the carved part while the active heap has room, that was not live before and overlaps none, live blocks and their bytes unchanged; 0 only when memory is exhausted and no run of free blocks in any heap is large enough. |
| `MemoryManager.MemoryManager.MallocReused` | contracts/graphenelib/graphenelib.cpp:148-163 | The round over all heaps finds a fit if any heap has one, and stops after one turn. |
| `MemoryManager.MemoryManager.Write` | contracts/graphenelib/graphenelib.cpp:385-442 | A contract that writes to a block it holds keeps everything the allocator relies on. |
| `HeapRegions.PayloadWrites` | contracts/graphenelib/graphenelib.cpp:385-491 | Whatever is written to bytes of live blocks, the headers in all heaps stay. |
| `MemoryManager.MemoryManager.Free` | contracts/graphenelib/graphenelib.cpp:211-225 | Only the block given back stops being live, in whichever heap it is; its header is all that is written. |
| `MemoryManager.MemoryManager.Realloc` | contracts/graphenelib/graphenelib.cpp:168-209 | A block of at least the size that starts with the first bytes of the old one, in place exactly when its heap has the room there, otherwise moved; live bytes of other blocks are unchanged; fails only when memory is exhausted and no free run is long enough, and then no block has changed. |
| `MemoryManager.MemoryManager.ReallocByMove` | contracts/graphenelib/graphenelib.cpp:197-208 | The move path copies the smaller of the two sizes and frees the old block only after that. |
| `UndoState.TracksReversed` | libraries/db/undo_database.cpp:95-123 | Applying what a session remembers to the state after it gives exactly the state before it: objects, removed objects and next instance numbers. |
| `UndoState.TracksMerged` | libraries/db/undo_database.cpp:125-244 | Merging two sessions remembers exactly what leads from the later state to the state before both. |
| `UndoDatabase.ImpossibleMerges` | libraries/db/undo_database.cpp:132-180 | The combinations the merge dismisses as impossible are impossible for sessions that follow each other. |
| `UndoDatabase.ObjectDatabase.StartUndoSession` | libraries/db/undo_database.cpp:33-46 | Opens a session and drops the oldest ones beyond the limit; the remaining ones still lead back. |
| `UndoDatabase.ObjectDatabase.Create` | libraries/db/undo_database.cpp:47-59 | The new object gets the next number of its index, and undoing removes it and gives the number back. |
| `UndoDatabase.ObjectDatabase.Modify` | libraries/db/undo_database.cpp:60-72 | The object changes; the value remembered is the one before the session. |
| `UndoDatabase.ObjectDatabase.Remove` | libraries/db/undo_database.cpp:73-93 | The object goes; undoing brings back the value before the session, or nothing if the session created it. |
| `UndoDatabase.ObjectDatabase.UndoSession` | libraries/db/undo_database.cpp:95-123 | The four restoring loops give back exactly the state in which the session was opened. |
| `UndoDatabase.ObjectDatabase.Merge` | libraries/db/undo_database.cpp:125-244 | The merge loops compute the merge of two sessions: the outer session now leads back over both. |
| `UndoDatabase.ObjectDatabase.Commit` | libraries/db/undo_database.cpp:245-249 | Committing changes no state. |
| `UndoDatabase.ObjectDatabase.PopCommit` | libraries/db/undo_database.cpp:251-287 | Takes back the last committed session; refused when a session is open or none is left. |
| `ForkTree.FetchBranchFrom` | libraries/chain/fork_database.cpp:198-240 | Both branches back to the most recent common predecessor, and None exactly when there is no such pair of known blocks. |
| `ForkTree.ForkUnique` | libraries/chain/fork_database.cpp:198-240 | There is at most one such pair of branches. |
| `ForkTree.FiledTree` | libraries/chain/fork_database.cpp:73-105 | Filing keeps every known block one above its known predecessor; only a higher block becomes the head; the block is known afterwards, and of the others exactly those not too far below a new head. |
| `ChainDatabase.RunPhase` | libraries/chain/db_block.cpp:505-566 | Changes are applied in order, in the open session, up to the first that is refused. |
| `ChainDatabase.Database.constructor` | libraries/chain/db_management.cpp:68-72 | A node that has just started: its invariants hold, with the start block as the only known block and the head of the fork database. |
| `ChainDatabase.Database.ApplyBlock` | libraries/chain/db_block.cpp:505-566 | A block that does not build on the head is refused. Otherwise the head moves, the transactions run, the undo history and the fork database are resized to what is above the last irreversible block, and the maintenance runs from there; nothing else happens. |
| `ChainDatabase.Database.ApplyInSession` | libraries/chain/db_block.cpp:204-214 | The block is applied and committed, or the objects are as before; the undo history grows by one or is only trimmed; the invariants of the node hold. |
| `ChainDatabase.Database.ApplyAll` | libraries/chain/db_block.cpp:161-172 | Blocks are applied one by one up to the first that throws, and how many that are. |
| `ChainDatabase.Database.PopBlock` | libraries/chain/db_block.cpp:435-447 | Takes the head block off: the fork database first, then the undo history; each can fail, and what has moved by then stays moved. |
| `ChainDatabase.Database.PopTo` | libraries/chain/db_block.cpp:157-159 | Pops until the target is the head or popping fails. |
| `ChainDatabase.Database.ForgetFrom` | libraries/chain/db_block.cpp:177-181 | The blocks of a branch from the given one on, and no others, are taken out of the fork database. |
| `ChainDatabase.Database.SwitchBack` | libraries/chain/db_block.cpp:182-196 | Pops the new branch and applies the old one again, or stops where popping fails. |
| `ChainDatabase.Database.SwitchFork` | libraries/chain/db_block.cpp:155-200 | The whole switch computes the function whose outcomes `ForkSwitch.SwitchExact` lists, from every state that meets the invariants. |
| `ChainDatabase.Database.ConsiderFork` | libraries/chain/db_block.cpp:148-202 | A highest block that does not extend the head: nothing happens if it is no higher, its fork is switched to if there is one, and otherwise an exception. |
| `ChainDatabase.Database.PushBlock` | libraries/chain/db_block.cpp:138-217 | For every state that meets the invariants and every block: the invariants hold afterwards. A block with an unknown predecessor, or too far below the highest known one, is refused and nothing changes; any other is filed and then applied, left alone or the cause of a switch. An exception leaves the objects as they were exactly when no switch was tried that does harm. |
| `BlockPush.PushSound` | libraries/chain/db_block.cpp:138-217 | What holds of a node holds after every push: the undo history leads back over the blocks applied, and every block around is the one its id stands for. |
| `BlockPush.PushHandled` | libraries/chain/db_block.cpp:138-217 | What becomes of a pushed block, told from the known blocks, the head and the effect of the block: refused unfiled, applied to the head, forgotten if it throws, only filed, or the cause of a switch. |
| `BlockPush.SwitchedExact` | libraries/chain/db_block.cpp:146-200 | A fork is switched to if and only if it is tried, the undo history reaches its ancestor and all its blocks apply; the state is then the replay of the fork. |
| `BlockPush.AllOrNothing` | libraries/chain/db_block.cpp:118-217 | A push that throws leaves the objects as they were if and only if every switch it tried is harmless: there was nothing to pop, or all the blocks that applied come off, or all but one, which is the old head. |
| `BlockPush.SwitchMadeExact` | libraries/chain/db_block.cpp:146-160 | A pushed block that completes a longer fork all of whose blocks apply is switched to if and only if it is higher than the head of the fork database, or is that head. |
| `BlockPush.StaleHeadArises` | libraries/chain/db_block.cpp:204-214 | A block that extends the head and throws stays the head of the fork database, though it is no longer filed. |
| `BlockPush.StaleHeadMisses` | libraries/chain/fork_database.cpp:73-105 | With such a head, a block that completes a fork of the same height throws and is forgotten. |
| `BlockPush.StaleHeadCosts` | libraries/chain/db_block.cpp:138-217 | For every node: a longer fork that would have been switched to is not, once a bad block on top of the head has been pushed. |
| `ForkSwitch.SwitchExact` | libraries/chain/db_block.cpp:148-202 | Every way a switch can end. It loses blocks if the undo history does not reach the ancestor; it succeeds if and only if every block of the new branch applies; and if one throws, the objects are as they were if and only if all blocks applied so far come off again, or all but the old head itself. |
| `ForkSwitch.TakenBackExact` | libraries/chain/db_block.cpp:182-186 | How much of a failed switch is taken back: for every k, at least k blocks of the new branch come off if and only if irreversibility did not pass the block after the one they stand on while the branch was applied, and they are fewer than the blocks of the old one or the fork database still knows enough blocks below the ancestor. |
| `ForkSwitch.SwitchForgets` | libraries/chain/db_block.cpp:172-182 | After a failed switch neither the block that threw nor any above it is known. |
| `ChainNode.RoomyExact` | libraries/chain/db_update.cpp:108-114 | The undo history keeps the sessions of a run if and only if irreversibility does not pass the block that many above the one it started from. |
| `ChainNode.AppliedAllBack` | libraries/chain/db_block.cpp:161-172 | The undo history leads back to every state a run went through, and from there on as before. |
| `ChainNode.PoppedToBack` | libraries/chain/db_block.cpp:157-159 | Popping goes back as many states as the branch is long, or stops where the fork database or the undo history gives out. |
| `ChainExamples.PushStranded` | libraries/chain/db_block.cpp:148-202 | A run of pushes at whose end a switch to a fork of four good blocks and a bad one fails and leaves the first of them as the head, because block 3 was irreversible by then. |
| `ChainExamples.PushLost` | libraries/chain/db_block.cpp:138-217 | A run of pushes in which a bad block costs the node a switch; the objects stay as they are. |
| `BlockReplay.ApplyingExact` | libraries/chain/db_block.cpp:161-172 | The blocks before the first that throws can be replayed, and no more. |
| `BlockReplay.OldBranchReplays` | libraries/chain/db_block.cpp:188-195 | Replaying the branch just left gives the state before it was left. |
| `BlockReplay.BranchOnHistory` | libraries/chain/db_block.cpp:155-159 | The branch found in the fork database below the head is the chain that was applied. |
| `BlockGeneration.TransactionReplays` | libraries/chain/db_block.cpp:663-773 | A transaction whose contract calls were all billed some time replays with the same results and state on any node fast enough. |
| `BlockGeneration.ReplayExact` | libraries/chain/contract_evaluator.cpp:148-171 | That holds on every such node if and only if no recorded time is zero: zero is read as not billed, and the time is measured again. |
| `BlockGeneration.GeneratedBlockReplays` | libraries/chain/db_block.cpp:345-401 | The transactions kept for a block apply again in order with the same results and the same final state, whatever was dropped or postponed between them. |
| `BlockGeneration.GeneratedBlockWithinLimit` | libraries/chain/db_block.cpp:345-401 | Their summed time stays below the limit, although time spent on postponed ones counts too. |
| `BlockGeneration.GeneratedBlockPasses` | libraries/chain/db_block.cpp:519-543 | A generated block passes both the replay and the check of its summed time. |
| `BlockGeneration.ApplyOperation` | libraries/chain/contract_evaluator.cpp:133-191 | A native operation runs its script. A contract call succeeds if and only if its time is within the limit (3 s if it was billed before, the limit of a transaction else), its code runs and then the charge does; the receipt carries the billed time, or the measured one if there is none. |
| `BlockGeneration.OperatesExact` | libraries/chain/contract_evaluator.cpp:133-191 | An operation ends with a state and a result if and only if these are what it has to lead to. |
| `BlockGeneration.ApplyTransaction` | libraries/chain/db_block.cpp:663-773 | Succeeds if and only if the transaction is admitted and its operations lead on from state to state, each with the time recorded for it; the results are theirs, in order. |
| `BlockGeneration.AppliesExact` | libraries/chain/db_block.cpp:663-773 | The recursive application of a transaction agrees with the step by step one, in both directions. |
| `BlockGeneration.SelectExact` | libraries/chain/db_block.cpp:345-401 | The block takes exactly the pending transactions that fit, apply and leave time, in order; time spent on the others that were tried counts. |
| `BlockGeneration.BlockExact` | libraries/chain/db_block.cpp:519-526 | The transactions of a block can be applied if and only if they lead on from state to state with their recorded results. |
| `BlockGeneration.CpuAdds` | libraries/chain/db_block.cpp:528-536 | Every receipt counts with its time, wherever it is, and nothing else does. |
| `BlockGeneration.TryTransaction` | libraries/chain/db_block.cpp:369-401 | One pending transaction: merged into the block session if it applies and stays below the limit, undone otherwise. |
| `BlockGeneration.GenerateBlock` | libraries/chain/db_block.cpp:332-407 | The loop selects what is to be kept of the pending transactions, in order, and leaves the state as it was. |
| `BlockGeneration.ApplyTransactions` | libraries/chain/db_block.cpp:519-543 | A received block is accepted exactly when all its transactions apply and their summed time is within the limit. |
| `AbiTypes.SuffixCut` | libraries/chain/abi_serializer.cpp:186-195 | One suffix is cut off a name, an array suffix before an optional one, and nothing else. |
| `AbiTypes.IsTypeExact` | libraries/chain/abi_serializer.cpp:197-206 | A name is known if and only if looking it up, through typedefs and without suffixes, ends within the recursion limit at a built-in type or at a struct. |
| `AbiTypes.EndsInTime` | libraries/chain/abi_serializer.cpp:277-288 | Pigeonhole: a chain of typedefs that ends at all ends within as many steps as there are typedefs. |
| `AbiTypes.ResolveType` | libraries/chain/abi_serializer.cpp:277-288 | The bounded loop finds the end of the chain, or gives the name back where there is none. |
| `AbiTypes.ResolvedIsNoTypedef` | libraries/chain/abi_serializer.cpp:277-288 | In an accepted ABI the loop never leaves through its bound: the result is no typedef. |
| `AbiTypes.WalkChain` | libraries/chain/abi_serializer.cpp:217-228 | The walk that remembers names succeeds exactly when the chain of typedefs ends. |
| `AbiTypes.DeclaredInOrder` | libraries/chain/abi_serializer.cpp:121-125 | Declaring before use makes typedef chains acyclic, if every struct name is itself a known type. |
| `AbiTypes.CircularExact` | libraries/chain/abi_serializer.cpp:217-228 | The check for circular typedefs can fail after all earlier checks have passed if and only if some struct has a name that is no type. |
| `AbiTypes.CircularExample` | libraries/chain/abi_serializer.cpp:109-147 | A concrete ABI that passes every earlier check and is circular: the claim that the check cannot fire is false without the condition. |
| `AbiSerializer.Serializer.DeclareTypes` | libraries/chain/abi_serializer.cpp:121-125 | Typedefs are declared in order; the loop succeeds exactly when each names a known type and an unknown name. |
| `AbiSerializer.StructsFiled` | libraries/chain/abi_serializer.cpp:115-140 | No struct is lost if and only if the names are different; then each is found under its own. |
| `AbiSerializer.Serializer.WalkBases` | libraries/chain/abi_serializer.cpp:237-249 | The walk over the bases of a struct succeeds only if they are structs and end, and fails only if the bases are wrong. |
| `AbiSerializer.Serializer.Validate` | libraries/chain/abi_serializer.cpp:215-275 | Accepts exactly the well-formed tables; reports a circular typedef exactly when there is one. |
| `AbiSerializer.Serializer.SetAbi` | libraries/chain/abi_serializer.cpp:109-147 | Accepts exactly the ABIs that pass every check, and files typedefs, structs, actions and tables under their names. |
| `AbiCodec.DecodeEncode` | libraries/chain/abi_serializer.cpp:290-405 | Whatever the encoder writes, followed by anything, the decoder reads back as the meaning of the variant and leaves what follows; it refuses exactly where the meaning is undefined: beyond its depth, for structs without fields, for lists with nulls. Stated for variants whose structs are given as objects or non-empty arrays and are read back as structs. |
| `AbiCodec.SameVariant` | libraries/chain/abi_serializer.cpp:290-405 | For variants in decoded form (fields of the base first, distinct names, no nulls in lists) decoding gives back the very same variant. |
| `AbiParts.ArrayAsObject` | libraries/chain/abi_serializer.cpp:389-400 | A struct given as a non-empty array is written like the object that has the i-th item under the name of the i-th field, with nulls for missing items. |
| `AbiParts.ArrayBack` | libraries/chain/abi_serializer.cpp:290-405 | Such an array is read back as an object whose i-th member is what the i-th item means for the i-th field. |
| `AbiParts.LookupExact` | libraries/chain/abi_serializer.cpp:376-388 | The first member of a name is found, if there is one. |
| `AbiParts.PutExact` | libraries/chain/abi_serializer.cpp:290-307 | Setting a member replaces the first of that name, or adds one at the end. |
| `AbiParts.BuiltinEncoded` | libraries/chain/abi_serializer.cpp:348-360 | A type that resolves to a built-in one, alone, as a list or optional, is left to the codec of that type, used that way. |
| `AbiCodec.TidyMeaning` | libraries/chain/abi_serializer.cpp:290-342 | Such a variant means itself. |
| `AbiRoundTrip.RoundTripExact` | libraries/chain/abi_serializer.cpp:290-405 | For every set of types an ABI can have: every value in decoded form comes back, whatever the codecs of the built-in types, if and only if no struct in use is named as if it were optional and none has a base named as a built-in type. |
| `AbiRoundTrip.OptionalStructLost` | libraries/chain/abi_serializer.cpp:332-375 | An ABI that passes every check, and a value of its struct `x?` that is written as a struct and read as null. |
| `AbiCodec.StructGivenExact` | libraries/chain/abi_serializer.cpp:375-401 | What is written for a struct type is read back as what it means if and only if it is given as an object or a non-empty array; an empty array, a null or a scalar is not. |
| `AbiCodec.NothingFromNothing` | libraries/chain/abi_serializer.cpp:290-342 | No value of any type is read from no bytes. |
| `AbiCodec.EmptyArrayLost` | libraries/chain/abi_serializer.cpp:375-401 | A struct given as an empty array, a null or a scalar is written as nothing and cannot be read back. |
| `AbiCodec.AcceptedUsable` | libraries/chain/abi_serializer.cpp:109-147 | What set_abi accepts meets the hypotheses of the round trip. |
| `TableObjects.AddedKept` | libraries/chain/apply_context.cpp:105-130 | Storing keeps every table counting exactly its rows and secondary keys. |
| `TableObjects.DroppedKept` | libraries/chain/apply_context.cpp:163-181 | So does removing. |
| `TableObjects.DroppedTableKept` | libraries/chain/apply_context.cpp:327-331 | A table whose count is zero has no rows left, so removing it orphans none. |
| `IteratorCache.AddSound` | libraries/chain/include/graphene/chain/apply_context.hpp:112-122 | Iterators and objects keep matching one to one; every other iterator stands for what it stood for. |
| `IteratorCache.ForgetSound` | libraries/chain/include/graphene/chain/apply_context.hpp:101-110 | A forgotten iterator stands for nothing; the others are unchanged. |
| `ApplyContext.Context.FindOrCreateTable` | libraries/chain/apply_context.cpp:308-325 | The table is there afterwards; its creation is billed once, and no row looks different. |
| `ApplyContext.Context.DbStore` | libraries/chain/apply_context.cpp:89-130 | Refused exactly when the payer may not pay or the key is taken; otherwise exactly one row is new, paid by the receiver if the payer is 0. That account alone is billed, by the bytes of the row, its overhead and a new table. No object is ever paid by account 0 unless the receiver is, and every payer stays billed the change in what it pays for. |
| `ApplyContext.Context.DbUpdate` | libraries/chain/apply_context.cpp:132-161 | Exactly one row changes; its payer, the receiver if 0 is given, takes over the whole row and the old one is refunded all of it; every iterator keeps its row. |
| `ApplyContext.Context.DbRemove` | libraries/chain/apply_context.cpp:163-181 | Exactly one row goes, and its payer alone is refunded its bytes and overhead; only its iterator dies. |
| `ApplyContext.Context.DbGet` | libraries/chain/apply_context.cpp:183-194 | The bytes of the row the iterator stands for. |
| `ApplyContext.Context.DbFind` | libraries/chain/apply_context.cpp:245-257 | An iterator for the row exactly when the row is there, otherwise the end of the table. |
| `ApplyContext.Context.DbEnd` | libraries/chain/apply_context.cpp:289-295 | The end iterator of a table, -1 exactly when there is no such table. |
| `ApplyContext.Context.DbLowerBound` | libraries/chain/apply_context.cpp:259-272 | The row with the least key at or above the given one, or the end of the table when there is none. |
| `ApplyContext.Context.DbNext` | libraries/chain/apply_context.cpp:196-210 | The row with the next greater key of the same table, or the end of that table when there is none. |
| `ApplyContext.Context.DbPrevious` | libraries/chain/apply_context.cpp:212-243 | The row with the next smaller key, or the last row before an end. |
| `ApplyContext.Context.IdxStore` | libraries/chain/include/graphene/chain/apply_context.hpp:211-234 | One more secondary key, billed to its payer, the receiver if 0 is given, with a new table if it is the first. |
| `ApplyContext.Context.IdxUpdate` | libraries/chain/include/graphene/chain/apply_context.hpp:260-272 | One secondary key changes; its payer does not. |
| `ApplyContext.Context.IdxRemove` | libraries/chain/include/graphene/chain/apply_context.hpp:236-258 | One secondary key goes, and with the last entry the table; each payer is refunded by as much as it was billed. |
| `ApplyContext.Context.IdxFindPrimary` | libraries/chain/include/graphene/chain/apply_context.hpp:383-396 | An iterator for the secondary key of a primary key exactly when it is there, otherwise the end of the table. |
| `MultiIndex.MultiIndex.Emplace` | contracts/graphenelib/multi_index.hpp:627-670 | A new object: the host row holds it packed, every secondary table holds its key, the cache holds it, and a taken key is refused. |
| `MultiIndex.MultiIndex.Load` | contracts/graphenelib/multi_index.hpp:427-469 | The cached object for an iterator, or the host row unpacked; no key is ever cached twice. |
| `MultiIndex.MultiIndex.Find` | contracts/graphenelib/multi_index.hpp:741-753 | Finds exactly the keys a plain map of the objects has, with the value of that map. |
| `MultiIndex.MultiIndex.Modify` | contracts/graphenelib/multi_index.hpp:679-733 | The object changes in cache, host row and exactly the secondary tables whose key changes; a changed primary key is refused. |
| `MultiIndex.MultiIndex.Erase` | contracts/graphenelib/multi_index.hpp:766-795 | The object leaves cache, host table and all secondary tables; the other cached objects stay right. |
| `MultiIndex.MultiIndex.AvailablePrimaryKey` | contracts/graphenelib/multi_index.hpp:576-593 | The key returned exceeds every key in the table; the first time it is 0 or follows the greatest key, later it is the one remembered, and None exactly at the limit. |
| `MultiIndex.MultiIndex.UpdateSecondaries` | contracts/graphenelib/multi_index.hpp:717-732 | Only secondary keys that differ are rewritten, looking up iterators that are not known. |
| `MultiIndex.MultiIndex.RemoveSecondaries` | contracts/graphenelib/multi_index.hpp:784-794 | Every secondary key of the object goes, also the last one of a table. |
| `Varint.RoundTrip` | contracts/graphenelib/varint.hpp:42-63 | Every 32-bit value is read back, whatever follows it. |
| `Varint.SignedExact` | contracts/graphenelib/varint.hpp:99-122 | The signed reader inverts the signed writer if and only if the value is in [-2^30, 2^30). |
| `Packing.UnpackSeen` | contracts/graphenelib/datastream.hpp:389-889 | For every type of the universe and every value of it, what unpacking makes of the packed bytes followed by anything, and that it leaves what follows. |
| `Packing.UnpackPack` | contracts/graphenelib/datastream.hpp:389-889 | The value is given back if its signed variable-length integers have 31 bits; for types without sets and maps, only then. |
| `Packing.SwappedSet` | contracts/graphenelib/varint.hpp:100-121 | The signed reader swaps two neighbours beyond 31 bits, so a set of both comes back all the same. |
| `Packing.InsertIncreasing` | contracts/graphenelib/datastream.hpp:665-786 | A set or map read back element by element in order is the one written. |
| `Packing.InsertAllOrdered` | contracts/graphenelib/datastream.hpp:665-786 | Whatever elements the bytes of a set or map spell, and in whatever order, what is read is in order and without duplicates. |
| `Packing.LessExact` | contracts/graphenelib/datastream.hpp:656-786 | Sets are ordered by their elements, maps by their keys alone. |
| `Datastream.Stream.Write` | contracts/graphenelib/datastream.hpp:77-82 | Bytes are appended, or counted; refused exactly when the buffer has no room. |
| `Datastream.WriteUnsigned` | contracts/graphenelib/varint.hpp:42-52 | The loop writes the groups of seven bits. |
| `Datastream.PackTo` | contracts/graphenelib/datastream.hpp:389-889 | The same code over a counting and a writing stream: both advance by exactly the packed bytes. |
| `Datastream.PackSize` | contracts/graphenelib/datastream.hpp:929-934 | The size counted is the number of bytes packed. |
| `Datastream.PackValue` | contracts/graphenelib/datastream.hpp:944-952 | A buffer of the counted size is filled exactly, never overrun. |
| `Datastream.ReadUnsigned` | contracts/graphenelib/varint.hpp:54-63 | The loop reads the number the groups spell, cut to 32 bits. |
| `Datastream.UnpackFrom` | contracts/graphenelib/datastream.hpp:389-889 | Reading over the stream computes the specified value and leaves the specified rest. |
| `Datastream.UnpackValue` | contracts/graphenelib/datastream.hpp:900-919 | unpack(pack(v)) is v. |
| `FloatConversion.ConvertedNearest` | libraries/builtins/floatuntidf.c:26-76 | Round to nearest, ties to even (section 4.3.1 of IEEE 754-2008): no finite double is nearer, and one as near makes the result even. |
| `FloatConversion.SqueezeRounds` | libraries/builtins/floatuntidf.c:43-57 | Shifting with a sticky bit, or-ing in the last bit, adding one and dropping two bits rounds to nearest even. |
| `FloatConversion.LeadingZerosMeaning` | libraries/builtins/int_t.h:45-52 | Counting leading zeros in two halves gives 127 minus the binary logarithm. |
| `FloatConversion.FloatUnsigned` | libraries/builtins/floatuntidf.c:26-76 | The steps compute the nearest double for every unsigned 128-bit value. |
| `FloatConversion.FloatSigned` | libraries/builtins/floattidf.c:26-79 | The sign-symmetric extension, for every signed 128-bit value. |
| `FloatConversion.FixTruncates` | libraries/builtins/fixunsdfti.c:15-37 | Conversion back cuts to the integer part (section 5.8 of IEEE 754-2008), to 0 for negative numbers and to the greatest value for numbers beyond the range. |
| `FloatConversion.FixInverts` | libraries/builtins/fixunsdfti.c:15-37 | Converting back undoes converting for every integer that some double equals. |
| `Rounding.NearestEvenIsNearest` | libraries/builtins/floatuntidf.c:43-63 | Rounding half to even is nearest among all multiples of the unit, at every scale. |
| `CoinSeconds.AverageBetween` | libraries/chain/account_object.cpp:88-105 | Each new average lies between the old average and the effective balance. |
| `CoinSeconds.AverageExact` | libraries/chain/account_object.cpp:88-105 | The balance weighs as many seconds as it was there, the old average the rest of the window, rounded down; after a whole window only the balance counts. |
| `CoinSeconds.EarnedExact` | libraries/chain/account_object.cpp:106-124 | Earnings grow by the balance for every second up to the cap; only what goes beyond it is lost. |
| `CoinSeconds.Account.ComputeExact` | libraries/chain/account_object.cpp:59-126 | What is computed as earned is the old amount plus the locked balance for every second, or average times window if that is less; with what was spent and what the cap has cost it is exactly what was there at the start plus the integral of the locked balance. |
| `CoinSeconds.Account.UpdateCoinSeconds` | libraries/chain/account_object.cpp:128-138 | Average and earnings after the update, with exact weights and seconds, to the minute. What is left, was spent and was lost to the cap always adds up to what the locked balance has earned. |
| `CoinSeconds.Account.LockBalance` | libraries/chain/balance_lock_evaluator.cpp:42-76 | Earnings are brought up to date, by the balance locked before, and only then does the balance change; the sum over time stays exact. |
| `CoinSeconds.Account.SetCoinSeconds` | libraries/chain/account_object.cpp:140-146 | Sets what is left and never moves the last update back. |
| `CoinSeconds.Account.Collect` | libraries/chain/csaf_evaluator.cpp:11-73 | Collects exactly when enough is earned at the given time, the time is at most five minutes back and the receiver may hold it; what is left is what had accrued by then less what is collected. |
| `CoinSeconds.Account.SpentCovered` | libraries/chain/csaf_evaluator.cpp:11-73 | Over every run of updates and collects, what was spent never exceeds what was there at the start plus the minute-rounded integral of the locked balance. |
| `Advertising.Space.Buy` | libraries/chain/advertising_evaluator.cpp:89-156 | An order is taken exactly under the stated conditions; its price moves from the buyer into escrow. |
| `Advertising.Space.Update` | libraries/chain/advertising_evaluator.cpp:51-86 | The terms change; orders and balances do not. |
| `Advertising.Space.Accept` | libraries/chain/advertising_evaluator.cpp:185-241 | Platform, fee, supply and every refund of an accepted order, account by account; overlapping open orders are refused. |
| `Advertising.Space.Confirm` | libraries/chain/advertising_evaluator.cpp:158-256 | Only an open order is confirmed or refused, so escrow is settled once; who is paid how much, account by account. |
| `Advertising.Space.Ransom` | libraries/chain/advertising_evaluator.cpp:258-297 | Only the buyer of an order open for more than a week gets the price back; no other balance changes. |
| `Advertising.Space.RefundOverlapping` | libraries/chain/advertising_evaluator.cpp:215-231 | Exactly the open orders that overlap are paid back. |
| `Advertising.SettledExclusive` | libraries/chain/advertising_evaluator.cpp:190-241 | Accepting keeps accepted orders apart from each other and from every open order. |
| `Advertising.OneAtATime` | libraries/chain/advertising_evaluator.cpp:106-113 | At no moment are two orders shown, nor one while another is still open for it. |
| `Advertising.ApartExact` | libraries/chain/advertising_evaluator.cpp:106-113 | Orders pass the test for a conflict if and only if they share no moment. |
| `Advertising.FeeExact` | libraries/chain/advertising_evaluator.cpp:196-200 | The fee is the rate of the price rounded down, or the minimum if that is more. |
| `Advertising.ReceivedExact` | libraries/chain/advertising_evaluator.cpp:202-251 | What each account receives when an order is decided on is what was held for it before and is not any longer; only the price of an accepted order goes to the platform, less the fee. |
| `Advertising.EscrowSettled` | libraries/chain/advertising_evaluator.cpp:190-241 | Escrow shrinks by exactly the accepted order and the refunds. |
| `Ledger.Accounts.AdjustBalance` | libraries/chain/db_balance.cpp:72-126 | One balance and its mirrored core balance change together, exactly when there is enough to spend; the total changes by as much. |
| `Synopsis.StopsIncrease` | libraries/app/application.cpp:884-898 | The synopsis is strictly increasing and stays within the chain it summarises. |
| `Synopsis.StopsFew` | libraries/app/application.cpp:884-898 | It has at most floor(log2(H - low + 1)) + 1 entries. |
| `Synopsis.StopsEnd` | libraries/app/application.cpp:884-898 | With nothing to follow, its last entry is the high block. |
| `Synopsis.StopsNear` | libraries/app/application.cpp:884-898 | The last entry at or before c is no further from c than c is from the end. |
| `Synopsis.GetSynopsis` | libraries/app/application.cpp:784-902 | On every branch (main chain, fork, whole chain) the entries are ids of the summarised chain, from the last block that cannot be undone to the reference; an exception exactly when the reference cannot be placed or forked too long ago. |
| `Synopsis.Collect` | libraries/app/application.cpp:884-898 | Every entry is taken from the main chain or the fork history, within their bounds. |
| `Synopsis.GetBlockIds` | libraries/app/application.cpp:654-700 | Consecutive ids from the last known entry, that entry first; an exception exactly if no entry is known, or one known from a fork is beyond the chain; the remaining count is exact for every limit above zero. |
| `Synopsis.LastKnownExact` | libraries/app/application.cpp:654-680 | The search goes back exactly to the last entry that is on the chain, or that makes it throw. |
| `Synopsis.PeerAnswers` | libraries/app/application.cpp:654-700 | A peer that shares blocks up to c answers if and only if it knows no entry from a fork that is higher than its chain; then from the last entry s at or before c, with c - s at most H - c when nothing follows. |
| `ContentShares.TradeFair` | libraries/chain/content_evaluator.cpp:1183-1300 | A buyout keeps shares at one hundred percent, at most five receiptors, and the poster at the minimum or above. |
| `ContentShares.TradeValidates` | libraries/chain/content_evaluator.cpp:1183-1300 | After a buyout the next one passes validation if and only if the platform share was left alone, or poster and platform are the same. |
| `ContentShares.SurplusLeft` | libraries/chain/content_evaluator.cpp:553-580 | What is left for the platform is never negative. |
| `ContentShares.ShareExact` | libraries/chain/content_evaluator.cpp:553-580 | A share is the ratio of the amount, rounded down by less than one. |
| `ContentShares.TradedOffers` | libraries/chain/content_evaluator.cpp:1226-1290 | A buyout leaves all other shares and offers alone; what the seller keeps is no longer offered. |
| `ContentShares.Deposits.Buyout` | libraries/chain/content_evaluator.cpp:1183-1300 | The price goes from buyer to seller and the share the other way, nothing else changes; refused exactly under the stated conditions. |
| `ContentShares.Deposits.Distribute` | libraries/chain/content_evaluator.cpp:1098-1134 | A proxy reward or forward debits exactly what it credits, account by account. |
| `ContentShares.Reward` | libraries/chain/content_evaluator.cpp:982-1009 | A reward debits exactly what it credits, account by account. |
| `ContentShares.Validate` | libraries/chain/include/graphene/chain/content_object.hpp:284-302 | The loop checks exactly what validation demands of receiptors. |
| `Amounts.RoundTrip` | libraries/chain/asset_object.cpp:33-101 | Reading a printed amount gives it back, for every precision and every amount within the maximum supply, also negative ones below one. |
| `Amounts.SpelledMeaning` | libraries/chain/asset_object.cpp:33-86 | What every decimal number means: so many smallest units, also with fewer decimals than the precision; refused exactly if it has more, or is above the maximum supply. |
| `Amounts.ReadSigned` | libraries/chain/asset_object.cpp:33-86 | Behind a sign, a number is read up to the first character that is no digit and is negative; none if there is no digit or it does not fit 64 bits. |
| `Amounts.ReadNothing` | libraries/chain/asset_object.cpp:33-86 | Where there is neither a digit nor a sign, no number is read. |
| `Amounts.AmountFromString` | libraries/chain/asset_object.cpp:33-86 | The scan and the two parts are read as specified, including signs and points in odd places and 64-bit overflow. |
| `Amounts.PaddedDigits` | libraries/chain/asset_object.cpp:88-101 | Printing behind a leading one writes decimals with all their zeros. |
| `Amounts.WrittenIs` | libraries/chain/asset_object.cpp:88-101 | A printed amount is sign, whole digits, and point with decimals if there are any. |

## Left out

- HeapMemory.Memory.Malloc: sizes whose 32-bit sum with the offset wraps are outside its contract; the test is right exactly for the others.
- HeapMemory.Memory.ReallocInPlace: stated wherever growth in place is safe, like HeapMemory.Memory.GrowMerged and HeapMemory.Memory.MergeContiguous.
- MemoryManager.MemoryManager.Malloc: requests within 33 MiB of 4 GiB are outside its contract; the wrapping of the 32-bit sums there is stated by the lemmas about the tests.
- MemoryManager.MemoryManager.Realloc: stated wherever growth in place is safe; what the walk finds elsewhere is stated by the lemmas about it, but the heap it leaves behind is not described. A shrunk block keeps its old size.
- MemoryManager.MemoryManager.Sbrk: stated for whole pages and memories up to 33 MiB, the limit the node sets for contracts; the allocator asks for nothing else.
- ChainDatabase.Database.SwitchFork: the block log is not modelled; every applied block is found in it when it is popped.
- ChainDatabase.Database.PushBlock: an id is assumed to stand for one block only. Links between known blocks are looked up by id, whereas the program keeps weak pointers, which stay dead if a block is dropped and filed again. The fork database has a head from the start.
- ForkTree.FiledTree: blocks waiting for their predecessor and the invalid flag are not modelled; the first is never filled.
- BlockGeneration.GenerateBlock: the state after the header is the same for building and applying by hypothesis; signing, merkle roots and witness checks are left out. Chain parameters do not change within a block.
- BlockGeneration.ApplyOperation: evaluators and contract execution are functions of the objects they read; how long a run takes is a parameter.
- UndoDatabase.ObjectDatabase.Create: uniqueness of secondary keys in the object indexes is not modelled.
- AbiCodec.DecodeEncode: the codecs of built-in types are parameters that read back what they write; lists are shorter than 2^32. That structs are read back as structs is a hypothesis about the names met; the exact condition on an ABI is proved for values in decoded form. The one-megabyte output buffer and the serialization deadline are not modelled.
- AbiSerializer.Serializer.SetAbi: error messages are not modelled.
- ApplyContext.Context.DbStore: table counts are unbounded. Searches of the ordered indexes are linear scans with the same result.
- ApplyContext.Context.IdxRemove: cached tables are ids; the program caches pointers, which dangle once a table is removed.
- MultiIndex.MultiIndex.Erase: the item is read before it is destroyed. Searching by secondary key and the remaining iterators are left out, as they add queries of the same kind.
- Varint.RoundTrip: a number of more than five groups, whose shift is undefined, is refused by the model.
- Packing.UnpackPack: sets and maps compare by a parameter.
- FloatConversion.FixInverts: the signed and single-precision conversions are repeats of this one and left out.
- CoinSeconds.Account.Collect: only the regime in which locked balance alone earns is modelled; head block times do not go back.
- Advertising.Space.Buy: one advertising space at a time; times are unbounded; clearing of settled orders and the reported result map are left out.
- Ledger.Accounts.AdjustBalance: what is pledged or leased is a parameter; votes are not touched.
- ContentShares.Deposits.Buyout: authorisation by platforms and award bookkeeping are left out.
- Synopsis.GetSynopsis: the fork history is a parameter of the shape the fork database gives it; so are the ids known from forks in Synopsis.GetBlockIds.
- Amounts.AmountFromString: strings are of characters; locale-dependent digits are left out.
- Reading and writing the block log, peer networking, wallets, plugins and the query interfaces.
- Voting, witness scheduling, market matching and governance: independent of what is modelled here.
- calloc, fixed_key and the wider secondary keys of the contract library: they repeat what is modelled or are well behaved only in narrow cases.
