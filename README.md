# revLANG IR container, modelled in Dafny

The model covers the in-memory IR of revLANG.
- A **Module** owns name-keyed Functions.
- A **Function** owns name-keyed BasicBlocks and may designate an entry block.
- A **BasicBlock** holds tag-keyed successor edges to blocks of the same Function.

The three entities are Dafny classes. Their tables are `map` fields that the
registration and removal methods reassign in place. Parent links and successor
edges are object references, as they are pointers in C++. A C++ `assert` that
guards an operation becomes a returned `Status`. `AssertionFailed(m)` stands
for the abort with message `m`, and on that path the table is left as it was.

Modules:
- `KeyOrder` (key_order.dfy): `std::string` ordering, and the order in which a
  `std::map` keyed by strings is walked. That order is ascending key order,
  whatever the insertion order.
- `Digraph` (digraph.dfy): reachability in a successor graph.
- `DepthFirst` (search.dfy): the bookkeeping of the recursive depth-first
  search behind `Function::isValid`, over a `visited` map from blocks to flags.
- `Printing` (printing.dfy): what `dump` and `printCFGAsDOT` write, as
  functions of block names, successor tables and function names. It also holds
  the properties of that text.
- `CodeGen` (codegen.dfy): the three classes and their operations.
- `Instructions` (instructions.dfy): the documented operand counts of Load,
  Store and Add.
- `Scenarios` (scenarios.dfy): the unit scenarios, built through the factory
  methods.

The validator is stated as: `IsValid` returns true exactly when an entry block
is set and every registered block is reachable from it along successor edges.
The search is proved to terminate on cyclic graphs. Its measure is the number
of blocks not yet visited. `IsValid` takes a ghost set `U` of blocks that holds
the entry block and that no successor edge leaves; `U` names the blocks the
search may reach, and the caller must supply one. Any such set will do: the
verdict is the same for every choice (`CodeGen.VerdictIndependentOfBound`).
The registered blocks themselves qualify whenever the entry is registered and
every edge of a registered block points at a registered block
(`CodeGen.Function.EdgesRegistered`). Registering a block, adding an edge to a
registered block and choosing a registered entry keep that condition. Removing
a block that an edge still points at breaks it
(`Scenarios.RemovalLeavesDanglingEdge`).

Behaviour of the code the model keeps:
- Tables are walked in ascending key order (`std::map`), whatever the insertion order. This applies to `dump` and to DOT output.
- The DOT exporter walks the block table in descending key order.
- `removeBasicBlock` neither checks that the block is empty nor removes edges that point at the removed block. The emptiness assertion is commented out.
- `Module::dump` prints no global variables.
- `BasicBlock::dump` prints no instructions.
- `Function::dump` ends a non-empty function with a blank line.

## Model

| member | source | states |
|---|---|---|
| KeyOrder.SortedKeys | include/CodeGen.h:14-20 | the walk of a string-keyed `std::map` lists as many keys as the map has, each of them a key of the map |
| KeyOrder.SortedKeysSpec | include/CodeGen.h:14-27 | that walk lists exactly the keys of the map, in strictly ascending `std::string` order, so no key twice |
| KeyOrder.AscendingListingIsUnique | include/CodeGen.h:14-20 | any strictly ascending listing of a key set is that walk, so the order depends on the key set alone and not on insertion order |
| CodeGen.BasicBlock.constructor | src/CodeGen/CodeGen.cpp:14-15 | a new block has the given name and parent, and no successors |
| CodeGen.BasicBlock.Create | src/CodeGen/CodeGen.cpp:41-49 | the function's entry is set to the new block first, when asked; the block is then registered under its name, and that fails on a taken name; registering keeps every block owned by the function under its own name, and keeps the entry and every edge target registered |
| CodeGen.BasicBlock.NumOfSuccessors | src/CodeGen/CodeGen.cpp:17-19 | the count is zero exactly when the block has no successor |
| CodeGen.BasicBlock.AddSuccessor | src/CodeGen/CodeGen.cpp:57-61 | fails on a used tag, then on a target of another function; otherwise it maps the tag to the target and leaves every other tag as it was; it keeps every edge inside the function, and keeps every edge target registered when the new target is registered |
| CodeGen.BasicBlock.Dump | src/CodeGen/CodeGen.cpp:25-34 | the lines are the block text of the block's name and of its successor names by tag |
| CodeGen.Function.constructor | include/CodeGen.h:135-138 | a new function has the given name and parent, no blocks and no entry block |
| CodeGen.Function.Create | src/CodeGen/CodeGen.cpp:110-115 | a new function with no blocks and no entry is registered in its module under its name, and that fails on a taken name |
| CodeGen.Function.AddBasicBlock | src/CodeGen/CodeGen.cpp:99-102 | fails on a taken name; otherwise the table grows by exactly that entry, and the entry block stays; the entry and every edge target stay registered when the new block's targets are registered |
| CodeGen.Function.SetEntryBB | src/CodeGen/CodeGen.cpp:96 | the entry becomes the given block and the block table stays; a registered or null entry keeps the entry and every edge target registered |
| CodeGen.Function.NumberOfBBs | src/CodeGen/CodeGen.cpp:117 | the count is zero exactly when no block is registered |
| CodeGen.Function.Empty | src/CodeGen/CodeGen.cpp:88-90 | a function is empty exactly when it has no registered block |
| CodeGen.Function.RemoveBasicBlock | src/CodeGen/CodeGen.cpp:121-125 | only the entry named like the block is erased; no successor table changes and the entry pointer stays |
| CodeGen.Function.Traverse | src/CodeGen/CodeGen.cpp:154-163 | the search marks its start; it only adds visited entries and forgets none; every block it marks is reachable from the start; every block it marks has all its successors marked; it terminates on cycles |
| CodeGen.ReachableInAnyClosedSet | src/CodeGen/CodeGen.cpp:154-163 | a block reachable from the entry within one successor-closed set holding the entry is reachable within any other such set |
| CodeGen.VerdictIndependentOfBound | src/CodeGen/CodeGen.cpp:165-190 | every registered block is reachable from the entry within one such set exactly when it is within any other, so the verdict does not depend on the bound |
| CodeGen.Function.IsValid | src/CodeGen/CodeGen.cpp:165-190 | true exactly when an entry is set and every registered block is reachable from it along successor edges |
| CodeGen.RegisteredUnvisited | src/CodeGen/CodeGen.cpp:174-177 | the map filled before the search holds every registered block, unvisited, and nothing else |
| CodeGen.UnvisitedFromHolds | src/CodeGen/CodeGen.cpp:176-177 | inserting the blocks one by one, an existing entry kept, marks nothing and holds each inserted block |
| CodeGen.Function.Dump | src/CodeGen/CodeGen.cpp:70-86 | the lines are the function text of the function's name and its block table |
| CodeGen.Function.DumpBlocks | src/CodeGen/CodeGen.cpp:79-82 | the loop writes the dumps of the blocks in the order of the given keys |
| CodeGen.Function.PrintCFGAsDOT | src/CodeGen/CodeGen.cpp:127-152 | the lines are the DOT text of the function's name and its block table |
| CodeGen.Module.constructor | src/CodeGen/CodeGen.cpp:196 | a new module has the given name and no functions |
| CodeGen.Module.Create | include/CodeGen.h:196-199 | `create(name)` yields a fresh module named `name` with no functions |
| CodeGen.Module.AddFunction | src/CodeGen/CodeGen.cpp:207-210 | fails on a taken name; otherwise the table grows by exactly that entry |
| CodeGen.Module.NumberOfFns | src/CodeGen/CodeGen.cpp:219 | the count is zero exactly when no function is registered |
| CodeGen.Module.RemoveFunction | src/CodeGen/CodeGen.cpp:221-225 | fails unless the function has no blocks; otherwise only the entry named like it is erased |
| CodeGen.Module.Dump | src/CodeGen/CodeGen.cpp:198-205 | the lines are the module text of the module's name and its functions' names and block tables |
| Digraph.ReachableStep | src/CodeGen/CodeGen.cpp:159-161 | a block reaches whatever its successors reach |
| Digraph.ClosedSetHoldsReachable | src/CodeGen/CodeGen.cpp:178-183 | a set that holds the start and that no edge leaves holds everything reachable from the start |
| DepthFirst.StartSearch | src/CodeGen/CodeGen.cpp:156 | marking the start visited begins a search from it |
| DepthFirst.ReadyToVisit | src/CodeGen/CodeGen.cpp:160-161 | looking an unvisited successor up inserts it unvisited; that changes no mark, and the search from it has fewer unvisited blocks left |
| DepthFirst.VisitedSuccessor | src/CodeGen/CodeGen.cpp:159-162 | the search from an unvisited successor keeps the search from its predecessor going |
| DepthFirst.FinishSearch | src/CodeGen/CodeGen.cpp:158-162 | once every successor tag is done, every block marked by the search has all its successors marked |
| DepthFirst.SearchMarksReachable | src/CodeGen/CodeGen.cpp:154-163 | a search begun with nothing marked marks exactly the blocks reachable from its start |
| DepthFirst.SearchVerdict | src/CodeGen/CodeGen.cpp:178-183 | after the search, no entry is left unvisited exactly when every registered block is reachable from the entry |
| Printing.BlockEdgesSpec | src/CodeGen/CodeGen.cpp:143-146 | the edges written for one block are exactly its successor table, in ascending tag order |
| Printing.EdgesFromSpec | src/CodeGen/CodeGen.cpp:142-147 | the edges written for the blocks under a suffix of the keys are exactly their successor tables, blocks in descending key order |
| Printing.DotEdgesSpec | src/CodeGen/CodeGen.cpp:140-149 | the DOT body has one line per CFG edge and no other: an edge is written exactly when it is in the successor table of a registered block; blocks come in descending name order, tags in ascending order; no (block, tag) pair is written twice |
| Printing.BlockTextIndented | src/CodeGen/CodeGen.cpp:25-34 | a block dump is two lines when the block has successors and one otherwise, each line indented |
| Printing.BlockTextLabel | src/CodeGen/CodeGen.cpp:25-34 | of a block dump, only the block's own label ends with a colon |
| Printing.BlocksTextLabels | src/CodeGen/CodeGen.cpp:79-82 | the labels in consecutive block dumps are those blocks' labels, in order |
| Printing.BlocksTextIndented | src/CodeGen/CodeGen.cpp:79-82 | every line of consecutive block dumps is indented |
| Printing.FunctionTextLabels | src/CodeGen/CodeGen.cpp:70-86 | the labels of a function dump are its header, then one label per registered block in ascending name order; an empty function shows the header alone |
| Printing.FunctionTextHeaders | src/CodeGen/CodeGen.cpp:70-86 | the only `def` line of a function dump is its header |
| Printing.FunctionsTextHeaders | src/CodeGen/CodeGen.cpp:203-204 | the headers in consecutive function dumps are those functions' headers, in order |
| Printing.ModuleTextHeaders | src/CodeGen/CodeGen.cpp:198-205 | a module dump holds one `def` header per registered function, in ascending name order, and no other |
| Instructions.NewLoad | include/CodeGen.h:67-73 | a load takes exactly one operand, which is the address it reads |
| Instructions.NewStore | include/CodeGen.h:75-82 | a store takes exactly two operands: the value first, then the address |
| Instructions.NewAdd | include/CodeGen.h:84-90 | an add takes three or more operands, kept in order |
| Instructions.WellFormedIsConstructed | include/CodeGen.h:67-90 | an instruction with the documented operand count is the one its constructor builds from its operands |
| Scenarios.Build | tests/UnitTests.cpp:20-25 | the factory calls build `bb.0`, `bb.1` and `bb.2` registered under their names, with the requested entry and the edge `bb.0 -> bb.1` |
| Scenarios.ChainIsValid | tests/UnitTests.cpp:6-16 | the chain `bb.0 -> bb.1 -> bb.2` with entry `bb.0` is valid |
| Scenarios.UnlinkedBlockIsInvalid | tests/UnitTests.cpp:19-28 | with `bb.2` unlinked, the function is invalid |
| Scenarios.NoEntryIsInvalid | tests/UnitTests.cpp:31-40 | without an entry block, the function is invalid |
| Scenarios.RemovalLeavesDanglingEdge | src/CodeGen/CodeGen.cpp:121-125 | removing `bb.1` while `bb.0 -> bb.1` remains leaves an edge to a block that is no longer registered |
| Scenarios.CreateThenDelete | tests/UnitTests.cpp:42-61 | removing the blocks and then the function succeeds and leaves the module without functions |

## Left out

- Instructions are not stored in blocks. `addInstruction`, `getInstructions`, `removeInstruction` and `removeSuccessor` are declared without a body in the code. `BasicBlock::remove` is an empty stub. None of them is modelled.
- Instruction constructor bodies and `dump` have no body in the code, so the opcode strings and the parent link are not modelled. Only the documented operand counts are modelled.
- `GlobalVariable`, `addGlobalVar` and `getVarWithID` have no body in the code and are not modelled. An operand is named by its `unsigned` id.
- The writes to `std::cout` and to the DOT file are I/O. The model produces the line sequence, where each line is what precedes a `'\n'`. The file name parameter and the unchecked file open are left out.
- `unique_ptr` ownership and destruction are not modelled. A removed block stays a Dafny object. An edge or an entry pointer to it stays as well, where C++ leaves a dangling pointer, and following one would be undefined behaviour there.
- Builds with `NDEBUG` are not modelled. The model follows the asserting build, where a failed `assert` aborts.
- `setParent` and `getParent` re-parenting is not modelled. The parent is a constant field.
- Strings are sequences of characters, compared by code point. `std::string` compares bytes as `unsigned char`, and the two orders agree on ASCII names.
- CodeGen.Module.Dump: calls no `Function::dump` method. It composes the function texts that `Function.Dump` is proved to produce.
- CodeGen.Function.Dump: calls no `BasicBlock::dump` method. It composes the block texts that `BasicBlock.Dump` is proved to produce.
