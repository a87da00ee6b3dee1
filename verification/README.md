# A verified model of the SSA passes and the LoongArch code generator

The project models four parts of the compiler and proves what they are for.

**Dominators and promotion of cells.** `Cfg` defines dominance by paths.
`DomTree`, `Frontier` and `Dominators` model the iterative algorithm of
`src/passes/Dominators.cpp`: postorder numbering, the two-finger walk, the
fixpoint loop, the runner walks and the tree; `FrontierLimits` holds the graphs
on which the walks fail. `PhiPlacement`, `RenameState`, `RenameTree` and
`Mem2Reg` model `src/passes/Mem2Reg.cpp`: the phi worklist and the recursive
renaming with one stack per variable. `Renaming` says which value reaches which
point, `Coverage` when every load finds one, `PhiPairs` which pairs the phis
get, `Unreached` what becomes of blocks that no path reaches, and `Promotion`
proves that the rewritten function runs like the original, for every type of
values, every interpretation of the other instructions, every initial world and
every amount of fuel. Values are the addresses a C++ pointer would compare; a
phi is named by the variable it was created for and its block. An alloca used
only as the pointer of loads and stores addresses a cell of its own; all other
effects go through a parameter.

**Purity and dead code.** `Program` gives a module with calls a meaning over a
memory of objects named by call depth and alloca, so that removing an alloca
does not rename the others and a gep stays in its object. `CallGraph`,
`FuncInfo` and `Purity` model `src/passes/FuncInfo.cpp` and prove that the
analysis is exact on the call graph and sound for what calls do; `Addresses` and
`PureFunctions` say of the text of a module which functions are pure.
`Liveness`, `DeadCode` and `Preservation` model `src/passes/DeadCode.cpp`, and
`Islands` says by opcodes what it removes.

**Both passes.** `BlankPhis`: the phis without a variable that promotion adds to
every block are all removed by elimination. `Escape` says when an alloca in memory
is private: it is only loaded from and stored to. `ItemRuns`, `CellRuns` and
`MemoryRuns` relate the memory of `Program` to the cells of `Promotion`, and
`Passes` proves the option `-mem2reg`, promotion and then elimination, for whole
modules with calls: every call that finishes before finishes after, with the same
result, memory and output.

**Use lists.** `UseDef` models `src/lightir/Value.cpp` and
`src/lightir/User.cpp` over a heap of objects. Every object can hold operands
and uses; a plain value is one without operands.

**Code generation.** `Bits` and `LoongArch` model words, bytes and the machine
instructions used (LoongArch Reference Manual, Volume 1, section 2.2). `TypedIr`
is the typed integer and pointer part of the IR at the level of numbers and
bytes. `FrameLayout`, `Lowering` and `CodeGen` model the frame layout and the
emission methods of `src/codegen/CodeGen.cpp`; `LoweringSound`, `InstSound`,
`PhiLowering`, `FrameCode` and `Encoding` prove them one by one, and
`CalleeSaved` that they leave the caller's registers alone. A block's code is
kept under its label instead of in one text. `TypedRun` has two runs of a
function: `RunIr` assigns the phis of the block entered on the edge, `RunSlots`
makes the copies the code makes. `FunctionSound` proves that the machine always
does what `RunSlots` does; `Copies`, `PhiEdges` and `SlotRuns` say when that is
what `RunIr` does, and `LostCopy` is a loop where it is not. `CodeLimits` holds
more input on which the copies or the frame go wrong.

## What the code needs, and where it falls short

- The walk of `create_dominance_frontier` ends exactly when the predecessor is
  reachable or the block is not (`Frontier.WalkEndsIff`). The builder makes a
  graph on which it does not end, from a loop whose body returns in both branches
  of an if (`FrontierLimits.WalkNeverEnds`). The frontiers are exact exactly when
  the entry has no reachable predecessor (`Frontier.FrontiersExactIff`,
  `FrontierLimits.EntryFrontierMissed`).
- Promotion finds a definition for every promoted load exactly when each has a
  store before it in its block, or, for a variable stored in several blocks,
  before the block on some path, or, for a variable stored in one block, in a
  dominator (`Coverage.LoadsFindIff`); otherwise a stack may be read when empty or
  a load outlive its store. Under that condition every run that does not get stuck
  is preserved. A run that reads a cell before any store gets stuck; the rewritten
  function does too if every promoted load follows a store on every path.
- Promotion also needs a function without phis, an entry without predecessors,
  reachable predecessors of reachable blocks, definitions that dominate their
  uses, and stores through an alloca, a gep or a global (`Renaming.WellFormed`).
- Over memory and calls both passes are proved for modules in which an alloca that
  is loaded or stored directly is used for nothing else (`Escape.Private`), and
  for instructions and declared functions that make no address of such an alloca
  up and do not look at one (`Escape.Honest`, `Escape.NumbersAreHonest`).
- `get_first_addr` looks through any instruction to its first pointer operand.
  With a phi that may be the wrong one: `Purity.PhiAddressHole` is a function
  that stores to a global and is left pure. An address is local exactly when every
  chain of origins, through bases of geps and all values of phis, ends in an
  alloca (`Purity.LocalIff`). Soundness is proved for modules in which that holds
  of the addresses the analysis calls local in functions it leaves pure; about
  addresses made by geps alone the analysis is always right (`Purity.PlainIff`).
- `remove_operand` keeps the use lists exactly when the operand is the last or
  the next operand is a different value (`UseDef.RemoveMirrorIff`).
- A frame of exactly 2048 bytes has an epilogue that cannot be encoded, and so
  has an alloca of more than 2048 bytes; no other immediate of a function fails to
  fit (`Encoding.FunctionEncodable`). A function that never returns has such an
  epilogue too, behind its last block (`CodeLimits.SpinFails`).
- The copies of `Handle_phi` assign the phis at once exactly when none of them
  reads what an earlier one has changed (`Copies.SequentialIsParallelIff`).
- They run for all successors and before the condition is tested. The slots are
  the values of the edge taken, for all values, exactly when each slot holds the
  operand the edge demands (`PhiEdges.EdgeExactIff`); in a safe order that means
  that every copy to a phi of the other successor, or to the condition, is a copy
  of a value to itself (`PhiEdges.SafeEdgeIff`). A loop whose phi is used after
  the loop is miscompiled: `LostCopy.CounterMiscompiled` returns 2 for 1.
  `FunctionSound.FunctionSound` needs the slots to be right for the values still
  read after the edge (`SlotRuns.SlotsKept`), which can be checked block by block
  (`SlotRuns.SafeEdgesOk`).
- A phi with three or more pairs gets the second pair's value from every
  predecessor but the first. Each predecessor copies its own value exactly when
  the pairs from the second on agree (`PhiEdges.AllIncomingIff`,
  `CodeLimits.ThirdPairWrong`).
- `gen_zext` and the `i1` case of `gen_store` look their operand up in the
  offset map without handling constants, so a constant there is an exception;
  they are the only instructions code generation fails on when every name has a
  slot (`Lowering.LowerableIff`).

## Model

| member | source | states |
|---|---|---|
| Cfg.DomComparable | src/passes/Dominators.cpp:21-53 | two dominators of one block dominate one another in one order, the reason immediate dominators exist |
| Cfg.IDomUnique | src/passes/Dominators.cpp:21-53 | the immediate dominator the pass reports is the only one |
| DomTree.ForwardPred | src/passes/Dominators.cpp:29-38 | in every turn of the loop some predecessor with a higher number is already linked, so assert(first) cannot fire |
| DomTree.TurnKeepsSound | src/passes/Dominators.cpp:29-51 | one turn keeps true dominators above a block on its chain of links |
| DomTree.TurnRaises | src/passes/Dominators.cpp:47-50 | a link is only ever moved to a proper ancestor with a higher postorder number |
| DomTree.TurnStep | src/passes/Dominators.cpp:29-51 | one turn keeps the whole invariant of the iteration and each write strictly raises a link |
| DomTree.AncIffDom | src/passes/Dominators.cpp:26-52 | at the fixpoint the chain of links above a block is exactly its set of dominators by paths |
| DomTree.LinkIsIDom | src/passes/Dominators.cpp:21-53 | at the fixpoint each link is the immediate dominator by the path definition |
| Dominators.Dominators.Reset | include/passes/Dominators.hpp:67-72 | the numbering of the last function is forgotten |
| Dominators.Dominators.Dfs | include/passes/Dominators.hpp:73-83 | the search numbers what it newly reaches in postorder, each new block but the start having a higher-numbered predecessor |
| Dominators.Dominators.NumNode | include/passes/Dominators.hpp:84-88 | exactly the reachable blocks are numbered, the entry highest, every other block with a higher-numbered predecessor |
| Dominators.Dominators.Intersect | include/passes/Dominators.hpp:31-41 | the walk ends at the nearest common ancestor of the two blocks |
| Dominators.Dominators.FirstProcessed | src/passes/Dominators.cpp:31-38 | a linked predecessor is found whenever there is one |
| Dominators.Dominators.MeetOfPreds | src/passes/Dominators.cpp:31-46 | the nearest common ancestor of all linked predecessors |
| Dominators.Dominators.Sweep | src/passes/Dominators.cpp:26-51 | a sweep that changes a link shrinks the measure, one that changes none leaves the fixpoint |
| Dominators.Dominators.CreateIdom | src/passes/Dominators.cpp:21-53 | the loop ends, in a fixpoint whose links keep the true dominators |
| Dominators.Dominators.WalkRunner | src/passes/Dominators.cpp:59-65 | the runner visits the chain from the predecessor up to the link of the block and records the block at each |
| Dominators.Dominators.CreateDominanceFrontier | src/passes/Dominators.cpp:55-68 | each set grows by exactly the blocks recorded by some walk |
| Dominators.Dominators.CreateDomTreeSucc | src/passes/Dominators.cpp:70-76 | each block is entered under its link and nowhere else |
| Dominators.Dominators.InsertBlocks | src/passes/Dominators.cpp:8-13 | absent blocks get empty entries, present ones keep theirs |
| Dominators.Dominators.RunOn | src/passes/Dominators.cpp:5-17 | for one function the three tables hold immediate dominators, frontiers and tree children by the path definitions; entries of other functions stay |
| Dominators.Dominators.Run | src/passes/Dominators.cpp:3-19 | after the pass the tables are right for every function of the module at once |
| Frontier.WalkStep | src/passes/Dominators.cpp:61-64 | one step of the runner climbs strictly and adds one visited block |
| Frontier.RecordedIffFrontier | src/passes/Dominators.cpp:55-68 | for a block other than the entry, recorded means in the dominance frontier by paths |
| Frontier.FrontiersExactIff | src/passes/Dominators.cpp:55-68 | all recorded sets are the dominance frontiers exactly when the entry has no reachable predecessor |
| Frontier.WalkEndsIff | src/passes/Dominators.cpp:60-64 | the walk ends exactly when the block is unreachable or the predecessor reachable |
| FrontierLimits.WalkNeverEnds | src/passes/Dominators.cpp:60-64 | a graph the builder makes on which a walk goes on for ever |
| FrontierLimits.EntryFrontierMissed | src/passes/Dominators.cpp:55-68 | a graph whose entry is in its own frontier and is not recorded |
| PhiPlacement.IDFLeast | src/passes/Mem2Reg.cpp:66-86 | the iterated frontier is the least set closed under frontiers |
| PhiPlacement.WorkEnds | src/passes/Mem2Reg.cpp:68-84 | with W empty, F holds each block of the iterated frontier once and no other reachable block |
| Mem2Reg.Mem2Reg.ScanBlock | src/passes/Mem2Reg.cpp:38-63 | every stored variable is recorded with its store blocks, each once, in first-store order |
| Mem2Reg.Mem2Reg.PlaceVariable | src/passes/Mem2Reg.cpp:66-86 | one phi of the variable in each block of the iterated frontier of its store blocks, nothing else inserted |
| Mem2Reg.Mem2Reg.GeneratePhi | src/passes/Mem2Reg.cpp:27-88 | a reachable block has a phi for a variable exactly when it is stored in several blocks and the block is in their iterated frontier |
| Mem2Reg.Mem2Reg.ReplaceAllUseWith | src/passes/Mem2Reg.cpp:118 | in every block exactly the operands equal to the load become the definition; names, opcodes, places and all other operands stay |
| Mem2Reg.Mem2Reg.RenameUses | src/passes/Mem2Reg.cpp:102-123 | after the block each stack has the reaching definition on top, promoted loads are replaced in all blocks below, and the accesses to erase are exactly the promoted ones |
| Mem2Reg.Mem2Reg.FeedSuccessors | src/passes/Mem2Reg.cpp:125-134 | over each edge to a successor each of its phis gets one pair, with the value defined at the end of this block |
| Mem2Reg.Mem2Reg.PopStacks | src/passes/Mem2Reg.cpp:140-150 | every stack is again as it was before the block |
| Mem2Reg.Mem2Reg.EraseInstrs | src/passes/Mem2Reg.cpp:151-153 | only the listed accesses leave the block |
| Mem2Reg.Mem2Reg.Rename | src/passes/Mem2Reg.cpp:90-155 | the blocks below are renamed, the other blocks keep all but the pairs their phis are given, no block anywhere uses a load deleted so far, and the stacks are returned as found |
| Mem2Reg.RenamedSettled | src/passes/Mem2Reg.cpp:115-120 | once everything below the entry is renamed, no block, reachable or not, uses a deleted load, and only phis without a variable use such phis |
| PhiPairs.CountNext | src/passes/Mem2Reg.cpp:125-134 | feeding one edge adds one pair to each phi of the successor whose variable has a definition, and nothing else |
| PhiPairs.CountedAll | src/passes/Mem2Reg.cpp:90-155 | after the walk the operands of a phi are value and block pairs, for each block as many as it has edges to the phi's block, each with its definition, and none from a block without one |
| PhiPairs.AtMostTwoPairs | src/passes/Mem2Reg.cpp:125-134 | without double edges a phi of a block with two reachable predecessors has at most two pairs |
| Mem2Reg.RenamedKept | src/passes/Mem2Reg.cpp:115-120 | blocks that no path reaches keep their instructions, the deleted loads among the operands replaced by the definitions they read |
| Mem2Reg.Mem2Reg.RunOn | src/passes/Mem2Reg.cpp:16-22 | on a well-formed function whose promoted loads find definitions the result is the rewritten function, phis placed exactly, each with one pair per edge, without a use of a deleted load |
| Mem2Reg.Mem2Reg.Run | src/passes/Mem2Reg.cpp:7-25 | so for every function of a module, with dominators computed once for all; declarations stay as they are |
| Mem2Reg.ModulePreserved | src/passes/Mem2Reg.cpp:7-25 | every function of the module runs after the pass as before it, unless it got stuck; with a store before each load on every path even then |
| Renaming.LoadsCovered | src/passes/Mem2Reg.cpp:115-120 | a load with a store where one is needed finds a definition, so no stack is read empty |
| Coverage.LoadsFindIff | src/passes/Mem2Reg.cpp:102-123 | all promoted loads find a definition exactly when each has a store before it in its block, on some path or in a dominator, as the number of storing blocks demands |
| Coverage.AssignedIsEnough | src/passes/Mem2Reg.cpp:102-123 | a store before each load on every path is enough |
| Renaming.ReachingDefinition | src/passes/Mem2Reg.cpp:66-138 | without a phi the definition at the end of every predecessor is that at the end of the immediate dominator |
| Renaming.NoBlankAt | src/passes/Mem2Reg.cpp:35 | a phi without a variable is never the definition of a variable nor replaces a load |
| Promotion.SimBlock | src/passes/Mem2Reg.cpp:102-153 | one block and its rewritten form take the same branch and stay related, each cell equal to its current definition, unless the original reads an empty cell |
| Promotion.PromotionPreservesRuns | src/passes/Mem2Reg.cpp:27-155 | for every meaning of the other instructions, world and fuel the rewritten function has the outcome of the original unless that got stuck, and also then if every promoted load follows a store on every path |
| Escape.NumbersAreHonest | src/io/io.c:3-16 | declared functions that read and write only numbers, like those of the runtime library, neither see nor change a private alloca |
| MemoryRuns.MirrorRun | src/passes/Mem2Reg.cpp:90-155 | a run of the rewritten function, which accesses no cell, is its run in memory, calls included |
| Passes.BlocksTracked | src/passes/Mem2Reg.cpp:27-155 | what a function does in memory it does with its private allocas apart; it lets no address of one out and leaves those of other frames alone |
| Passes.CallPromoted | src/passes/Mem2Reg.cpp:7-25 | in a module with private allocas every call that finishes before promotion finishes after it, with the same result and output and the same memory but for private allocas |
| Passes.PassesPreserveCalls | src/cminusfc/cminusfc.cpp:55-57 | after promotion, and after promotion and elimination, every call from outside that finished before finishes with the same result, memory and output |
| CallGraph.CallsImpureThrough | src/passes/FuncInfo.cpp:51-63 | a user of an impure function is impure |
| CallGraph.ClosedUnderCallers | src/passes/FuncInfo.cpp:4-17 | a set with all side effects and closed under users holds every function with a call chain to a side effect |
| FuncInfo.FuncInfo.TrivialMark | src/passes/FuncInfo.cpp:26-49 | pure exactly when defined, not main, without pointer parameters and without a side effect of its own |
| FuncInfo.FuncInfo.Process | src/passes/FuncInfo.cpp:51-63 | every user of the function becomes impure and each newly impure one is entered |
| FuncInfo.FuncInfo.Run | src/passes/FuncInfo.cpp:4-17 | pure exactly when no chain of calls leads to a side effect; each impure function is entered once |
| Purity.LocalIff | src/passes/FuncInfo.cpp:95-109 | a value can only be an address in the frame exactly when every chain of origins, through gep bases and all phi values, ends in an alloca |
| Addresses.IsLocalIff | src/passes/FuncInfo.cpp:81-109 | the analysis calls an address local exactly when an alloca is reached through bases of geps and first pointer operands, never through a load |
| Purity.PlainIff | src/passes/FuncInfo.cpp:81-109 | an address reached by geps only is called local exactly when it is in the frame, that is when the geps lead back to an alloca |
| Purity.LocalInFrame | src/passes/FuncInfo.cpp:80-94 | at run time such a value points into the frame of the running call |
| Purity.SimpleTwin | src/passes/FuncInfo.cpp:65-94 | an instruction without side effect does the same in two worlds and changes neither |
| Purity.PureCall | src/passes/FuncInfo.cpp:4-63 | a call that reaches no side effect ends alike in any two memories and outputs, with the same result, and changes neither |
| Purity.PureIsPure | include/passes/FuncInfo.hpp:9-21 | the same for every function the analysis leaves pure |
| Purity.PhiAddressHole | src/passes/FuncInfo.cpp:95-109 | a concrete function that stores to a global through a phi and is left pure |
| PureFunctions.PureIff | src/passes/FuncInfo.cpp:4-94 | a function is pure exactly when it belongs to a set of defined functions other than main that take only numbers, load and store only through addresses that lead to an alloca, and name only functions of the set |
| PureFunctions.GepsArePure | src/passes/FuncInfo.cpp:26-109 | functions that take numbers, touch only their own allocas and arrays and name only such functions are pure |
| PureFunctions.ImpureByName | src/passes/FuncInfo.cpp:27-43 | a declaration, main, and every function with a pointer parameter are impure |
| Liveness.NeededLeast | src/passes/DeadCode.cpp:19-52 | the instructions reached from critical ones by operands are the least set closed under use |
| Islands.DeadIff | src/passes/DeadCode.cpp:19-91 | an instruction is dead exactly when it belongs to a set of instructions, none a return, branch, store or call that may reach a side effect, whose results only the set uses |
| Islands.NothingIdle | src/passes/DeadCode.cpp:54-91 | a swept function holds no such set |
| Liveness.SurvivorsUseSurvivors | src/passes/DeadCode.cpp:54-75 | no instruction that stays uses one that is removed |
| Liveness.SweptHasNoDead | src/passes/DeadCode.cpp:9-16 | after a sweep everything that stays is still needed |
| Liveness.SweptOk | src/passes/DeadCode.cpp:54-75 | the swept function is well formed |
| DeadCode.DeadCode.MarkOperands | src/passes/DeadCode.cpp:40-52 | the definitions of the operands are marked, the new ones queued once |
| DeadCode.DeadCode.MarkFunction | src/passes/DeadCode.cpp:19-38 | the marked instructions are exactly the needed ones |
| DeadCode.DeadCode.Sweep | src/passes/DeadCode.cpp:54-75 | exactly the dead instructions go, survivors keep all operands, the count and the answer are right |
| DeadCode.DeadCode.Run | src/passes/DeadCode.cpp:5-17 | every function loses exactly its dead instructions, which are those of its idle sets, none of which is left, in at most two rounds, and the count is their number |
| Preservation.OneKept | src/passes/DeadCode.cpp:77-91 | a surviving instruction does the same without the dead registers; a dead one, pure calls included, changes no memory and no output |
| Preservation.EliminationPreservesRuns | src/passes/DeadCode.cpp:5-91 | every call that finishes before the pass finishes after it with the same result, memory and output |
| BlankPhis.BlanksAreDead | src/passes/DeadCode.cpp:19-75 | dead code elimination removes every phi without a variable that the pass put into the function, in whatever block |
| UseDef.SetKeepsMirror | src/lightir/User.cpp:5-14 | changing an operand keeps use lists and operand lists mirrored |
| UseDef.AddKeepsMirror | src/lightir/User.cpp:16-20 | so does adding one |
| UseDef.CutKeepsMirror | src/lightir/User.cpp:22-28 | so does dropping all |
| UseDef.ShiftedFacts | src/lightir/User.cpp:33-36 | which entries the lists hold while the later operands move down |
| UseDef.RemoveMirrorIff | src/lightir/User.cpp:30-40 | removing one keeps the mirror exactly when it is the last or the next is a different value |
| UseDef.RemoveTwinBreaks | src/lightir/User.cpp:30-40 | removing the first of two equal operands loses the entry of the second |
| UseDef.HandStep | src/lightir/Value.cpp:27-30 | one turn of the replacement moves one use to the new value |
| UseDef.RedirectedExactly | src/lightir/Value.cpp:24-31 | with all uses moved exactly the operands that were the old value have changed |
| UseDef.Value.AddUse | src/lightir/Value.cpp:15-17 | one entry at the end, nothing else on the heap |
| UseDef.Value.RemoveUse | src/lightir/Value.cpp:19-22 | all equal entries gone, nothing else on the heap |
| UseDef.Value.SetOperand | src/lightir/User.cpp:5-14 | the new heap, and the mirror kept |
| UseDef.Value.AddOperand | src/lightir/User.cpp:16-20 | the new heap, and the mirror kept |
| UseDef.Value.RemoveAllOperands | src/lightir/User.cpp:22-28 | no list mentions the user any more, and the mirror kept |
| UseDef.Value.RemoveOperand | src/lightir/User.cpp:30-40 | the new heap, and exactly when the mirror is kept |
| UseDef.Value.ReplaceAllUseWith | src/lightir/Value.cpp:24-31 | ends; the old list is empty, its uses in order at the end of the new one, all operands replaced |
| UseDef.Value.ReplaceUseWithIf | src/lightir/Value.cpp:33-43 | exactly the uses that pass the test move, both lists keep their order |
| Bits.AlignIsAlignUp | include/codegen/CodeGenUtil.hpp:13-15 | the bit formula is the least multiple at or above x for every power of two, when nothing overflows |
| LoongArch.LoadLargeInt32Exact | src/codegen/CodeGen.cpp:56-61 | every int32 is loaded exactly, with fields in range |
| LoongArch.LoadLargeInt64Exact | src/codegen/CodeGen.cpp:63-73 | every int64 is loaded exactly whatever the register held, with fields in range |
| LoongArch.ReadBack | src/codegen/CodeGen.cpp:75-124 | what is written in n bytes and fits them is read back with its sign |
| Lowering.LowerableIff | src/codegen/CodeGen.cpp:333-355 | with a slot for every name, exactly the extensions and stores of a constant flag cannot be generated |
| FrameLayout.PlaceNext | src/codegen/CodeGen.cpp:9-32 | the next slot is aligned and below everything placed before, with its body below it |
| FrameLayout.HighestNext | src/codegen/CodeGen.cpp:9-32 | no aligned place below the earlier names is higher, and no smaller depth holds them |
| FrameLayout.BodyFree | src/codegen/CodeGen.cpp:27-31 | the bytes an alloca hands out belong to no slot and not to the saved registers |
| FrameLayout.BodyAligned | src/codegen/CodeGen.cpp:27-31 | they are aligned for 4-byte elements |
| CodeGen.CodeGen.Allocate | src/codegen/CodeGen.cpp:5-36 | every name has the highest aligned place below all names before it, arguments first, then results block by block; nothing overlaps, and the size is the least multiple of 16 that holds them all |
| CodeGen.FrameUnique | src/codegen/CodeGen.cpp:5-36 | that determines every offset and the size |
| CodeGen.CodeGen.HandlePhi | src/codegen/CodeGen.cpp:526-559 | emits one copy for each phi of each successor that has one for this block, in order |
| CodeGen.CodeGen.GenBlock | src/codegen/CodeGen.cpp:612-688 | body, copies and terminator in this order |
| CodeGen.CodeGen.GenFunction | src/codegen/CodeGen.cpp:590-697 | a frame, the entry code, for every block the code that MachineRunsSlots and FunctionSound are about, and the epilogue behind the last block |
| LoweringSound.SlotWrite | src/codegen/CodeGen.cpp:100-124 | writing a slot changes that value and no other value, saved register or free byte |
| LoweringSound.FreeWrite | src/codegen/CodeGen.cpp:333-355 | writing free bytes leaves all slots and saved registers alone |
| LoweringSound.LoadSlot | src/codegen/CodeGen.cpp:75-98 | both forms of the slot load read the slot |
| LoweringSound.LoadOperand | src/codegen/CodeGen.cpp:38-54 | the register gets the value of the operand |
| LoweringSound.StoreName | src/codegen/CodeGen.cpp:100-124 | both forms of the slot store give the name its value |
| InstSound.BinarySound | src/codegen/CodeGen.cpp:242-266 | add, sub and mul give the wrapped 32-bit result, sdiv the quotient rounded toward zero when there is one |
| InstSound.CompareSound | src/codegen/CodeGen.cpp:361-394 | each of the six sequences decides its comparison |
| InstSound.IcmpSound | src/codegen/CodeGen.cpp:357-396 | the result slot holds the answer |
| InstSound.ZextSound | src/codegen/CodeGen.cpp:442-447 | the flag is copied as a 32-bit number |
| InstSound.AllocaSound | src/codegen/CodeGen.cpp:291-311 | the slot holds the address of the body |
| InstSound.LoadSound | src/codegen/CodeGen.cpp:313-331 | the slot holds the number read at the address, by type |
| InstSound.StoreSound | src/codegen/CodeGen.cpp:333-355 | the bytes at the address are written, by type |
| InstSound.GepSize | src/codegen/CodeGen.cpp:490-500 | $t1 holds the element size |
| InstSound.GepSound | src/codegen/CodeGen.cpp:481-505 | the slot holds base plus element size times index |
| InstSound.StepSound | src/codegen/CodeGen.cpp:612-688 | the code of any of these ends in a machine state matching the IR step |
| Copies.SequentialIsParallelIff | src/codegen/CodeGen.cpp:526-559 | copies in order assign all phis at once, for all values, exactly when no copy reads what an earlier one changed |
| Copies.HeldAt | src/codegen/CodeGen.cpp:526-559 | in a safe order each slot copied to holds the source of its copy as it was before |
| PhiLowering.CopiesSound | src/codegen/CodeGen.cpp:526-559 | the emitted copies do to the slots what the copies do to the values |
| FrameCode.PrologueRuns | src/codegen/CodeGen.cpp:164-178 | both forms of the prologue make the same frame, $t0 apart |
| FrameCode.PrologueSound | src/codegen/CodeGen.cpp:164-178 | the registers are saved, the frame is set up and free memory is untouched |
| FrameCode.StoreArgsSound | src/codegen/CodeGen.cpp:180-189 | each argument slot holds its argument |
| FrameCode.EpilogueSound | src/codegen/CodeGen.cpp:192-206 | the caller gets $sp, $fp and $ra back, for every frame size |
| FrameCode.FrameEncodable | src/codegen/CodeGen.cpp:164-206 | the prologue always fits its fields, the epilogue exactly for sizes other than 2048 |
| PhiEdges.AllIncomingIff | src/codegen/CodeGen.cpp:531-556 | every block a phi lists copies the value listed for it exactly when the pairs from the second on have one value |
| CodeLimits.ThirdPairWrong | src/codegen/CodeGen.cpp:541-553 | with three pairs the third block copies the value of the second |
| CodeLimits.UnlistedCopies | src/codegen/CodeGen.cpp:541-553 | every block but the first, listed or not, copies the second value, or nothing when there is one pair |
| CodeLimits.ExchangeLost | src/codegen/CodeGen.cpp:526-559 | the phis of a block are copied in their order: of two that exchange their values both get the second |
| CodeLimits.FirstTargetFirst | src/codegen/CodeGen.cpp:527-528 | the phis of a branch's first target are copied before those of its second |
| PhiEdges.EdgeExactIff | src/codegen/CodeGen.cpp:526-559 | for all symbols and values the copies leave the values of the edge taken and the same condition, exactly when each slot holds the operand the edge demands |
| PhiEdges.SafeEdgeIff | src/codegen/CodeGen.cpp:526-559 | in a safe order, with each phi copying its own value: exactly when copies to phis of the other successor and to the condition are copies to themselves |
| SlotRuns.SafeEdgesOk | src/codegen/CodeGen.cpp:526-559 | conditions on one block under which its slots are right for all values still read |
| SlotRuns.SlotsReturn | src/codegen/CodeGen.cpp:526-559 | if that holds on all edges, a run that returns with phis returns the same with copies |
| CalleeSaved.InstSpares | src/codegen/CodeGen.cpp:242-505 | no instruction's code writes register 2, 21 or 23 to 31 |
| FunctionSound.EntrySound | src/codegen/CodeGen.cpp:164-189 | the entry code makes the frame, stores the arguments and leaves registers 2, 21 and 23 to 31 alone |
| FunctionSound.BlockSound | src/codegen/CodeGen.cpp:612-688 | a block's code goes where its terminator goes after the copies, with the slots as the copies left them and registers 2, 21 and 23 to 31 untouched |
| FunctionSound.MachineRunsSlots | src/codegen/CodeGen.cpp:561-699 | whatever the phis, a call that returns in the run with copies returns on the machine to the address in register 1, with the same result in register 4, registers 2, 3 and 21 to 31 as at the call, and the same memory outside the frame |
| FunctionSound.FunctionSound | src/codegen/CodeGen.cpp:561-699 | when the slots are kept, so does a call that returns in the IR, phis assigned on the edge |
| LostCopy.CounterOk | src/codegen/CodeGen.cpp:526-559 | code generation accepts a loop whose phi is returned after the loop |
| LostCopy.CounterCalled | src/codegen/CodeGen.cpp:561-699 | there is a call of its generated code |
| LostCopy.CounterMiscompiled | src/codegen/CodeGen.cpp:526-559 | on every call its instructions return 1 and its code returns 2 |
| Encoding.FormLengths | src/codegen/CodeGen.cpp:38-124 | constants, slot offsets and frames within 12 bits take the short form, all others the long one |
| Encoding.InstEncodable | src/codegen/CodeGen.cpp:242-505 | every instruction fits its fields except an alloca of more than 2048 bytes |
| Encoding.BlockEncodable | src/codegen/CodeGen.cpp:612-688 | a block can be encoded exactly when its allocas take at most 2048 bytes and it does not return from a frame of 2048 bytes |
| Encoding.FunctionEncodable | src/codegen/CodeGen.cpp:590-697 | entry, blocks and the last epilogue fit their fields exactly when the allocas take at most 2048 bytes each and the frame is not one of 2048 bytes |
| CodeLimits.SpinFails | src/codegen/CodeGen.cpp:696 | a function that never returns whose last epilogue does not fit, though entry and blocks do |

## Left out

- Preservation.EliminationPreservesRuns: does not claim the converse, because a removed pure call may loop or fail.
- FunctionSound.FunctionSound: does not cover calls, i1 results (which `gen_ret` does not load) and more than eight arguments; the condition on slots is sufficient, since a wrong slot on an edge that no run takes does no harm.
- CodeGen.CodeGen.GenBlock: does not generate floating point instructions and calls.
- CodeGen.CodeGen.HandlePhi: does not copy phis of floating point type.
- FunctionSound.MachineRunsSlots: does not cover calls, floating point and more than eight arguments.
- CodeGen.CodeGen.GenFunction: does not generate floating point, calls, and gep elements of other sizes than 1, 4 and 8 bytes.
- InstSound.BinarySound: says nothing about a division by zero or one whose quotient overflows, which have no result in the IR either.
- CodeGen.CodeGen.Allocate: does not model frames of 2^31 bytes or more, where the 32-bit offsets of the source would wrap.
- FuncInfo.FuncInfo.Run: does not model the log; a cycle of operands, on which `get_first_addr` would not end, ends the model's walk.
- A promoted alloca whose address is passed to a call or computed with: `Exec` gives cells a memory of their own, and `Passes` asks for private allocas.
- Passes.PassesPreserveCalls: does not claim the converse, and lets the fuel of the call after the passes differ.
- In `Program` an alloca executed again yields its old object, as the fixed frame slot does.
- The order in which sets of pointers are iterated is left open; every result holds for any order.
- The unused `dom_edge`, `post_order` and the numbering that is commented out.
- Encoding.FunctionEncodable: does not bound the distance of branches, as labels have no addresses in the model.
- Which phis blocks get that no path reaches.
- `TypedIr` gives the IR a meaning of its own for code generation, by types and bytes; it is not related to `Program`, so the results on passes and on code generation are not composed.
- Text output: assembly formatting, labels, the global section, IR printing, logging, names.
- Lexer, parser, AST and the IR builder; type and constant interning.
