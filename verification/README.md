# Cript, modelled and proved

Cript is a small script language: a one-pass compiler to basic blocks, a layout pass
that turns the blocks into one instruction list, a register VM with hash-based objects,
and a copying collector.  These Dafny modules model the parts of it that rely on
invariants the C code never writes down, and prove those invariants.

| modules | what they model |
|---|---|
| `Values`, `Insts` | tagged 32-bit words and VM instructions |
| `Probe`, `HashTables`, `HashRuns`, `Hashes` | the probe sequence, the open-addressing table with tombstones, resizing, and the table object itself |
| `Strings`, `StringPools` | the string hash and the interning pool |
| `Layout`, `Backpatch`, `BasicBlocks`, `Tables`, `IrBuilder` | block graphs, their flat code, jump backpatching, and the builder with its tables of constants |
| `Arithmetic`, `Scopes`, `Codes`, `Programs`, `Expressions`, `Compilation` | the operators, the two-table scopes, straight-line code, what programs mean, and compiler correctness |
| `Operators`, `Language` | the operators in plain numbers and the statements in plain blocks of variables |
| `Grammar`, `Precedence`, `Parsers` | tokens, trees, which operator takes which operand, and the one-pass recursive descent |
| `Machines`, `MainFunctions` | the register machine that compiled code runs on, and the way from a program's text to it |
| `ShortCircuit`, `Logic`, `Lowering`, `Connectives` | `&&` and `||`: their blocks, their operands and what the compiler believes afterwards, the one pass that builds them, and their tokens |
| `Heaps`, `Marking`, `YoungGens`, `Redirects`, `Orders`, `Collections`, `Vms`, `Losses` | the heap, the collector, redirect headers, the order in which pointers are met, the VM's roots and registers, and a collection that goes wrong |
| `Aliasing`, `Expansions` | field writes that outgrow their table, for programs and for the collector |
| `Frames`, `SingleFrame`, `Closures`, `Safety`, `Interpreters` | `cvm_state_run` with its heap, calls, closures and returns: the steps, what all runs keep, and the loop itself |
| `Instructions`, `HeapInstructions` | every instruction in terms of what programs see |

Words are 32 bits wide, as the `-m32` build makes them; a `Value` is the tagged word
itself.  `error_f` traps, so an error of the C code is a missing result here (`None`,
`Trapped`, a false `ok`).  Loops and in-place updates of the C code are methods of
classes and loops, each proved equal to a function on values; the theorems are about
those functions.  `cvm_state_run` appears at three levels: `Layout` for an arbitrary
machine, `Machines` for one frame of numbers, `Frames` in full; `Machines.CvmIsVm`,
`SingleFrame.FlatRunIsRun` and `Interpreters.Interpreter.Turn` connect them and the objects.

## Main results

* Probing: for every power-of-two capacity the probe sequence visits every slot
  exactly once (the Hull-Dobell theorem for this generator, by induction on the exponent).
* Hashing: a table with tombstones refines a map.  A search ends if and only if its
  key or a null slot is there.  Inserts and updates never use up the free slots;
  removals can, and a concrete run shows it.
  An update doubles a table only when it is full: the copy made from three quarters on is
  halved again at once.
* Interning: two inserts give the same string exactly when their bytes are equal, over
  all histories; the load invariant stored = size + capacity / 2 - 8
  keeps eight slots free although expansion resets `size`.
* Layout: the flat code finishes with a result exactly when the block graph does,
  for every machine, and backpatching in one pass gives the code of the two-pass layout.
* Collection: `cvm_young_gc` is modelled on every heap whose pointers lead to objects,
  redirects in fields and roots included.  Marking ends on cyclic graphs and the new
  block never overflows.  Afterwards every pointer leads to an object again if and only if
  the global and the externals are objects and, in the depth-first order of the heap it
  starts from, every redirect in a field is met after the object behind it; then
  exactly the reachable objects are mapped one to one onto the new block, with their
  contents, and every path of field reads gives the same value.  Otherwise a header is
  copied although the C code follows the redirect, and a pointer into the emptied block
  is left; a heap of three headers shows it.
* Redirects: over any run of writes through any aliases, every alias reads the map of
  the object it names.
* Precedence: told by the operators alone, every expression written with parentheses around
  looser left operands and no tighter right operands is read back, and of two operators in a
  row the tighter one takes the operand between them.
* Instructions: what each of them leaves, in plain terms: numbers, the fields that every
  alias of an object reads, the values that the registers of a new frame hold.
* Compilation: for every straight-line program the code leaves each variable's
  value in its register, and traps exactly when the program fails; a rejected program is
  one that fails.  The two-table scopes refine lexical scoping.  The parser inverts the
  printer, and one pass over the text followed by the layout gives code that does in
  `cvm_state_run` what the program means.
* `&&` and `||`: for all operand expressions the blocks built in one pass
  evaluate exactly the operands up to the first that decides, trap exactly when one of
  those has no value, and leave the chain's value in the temporary register, in the graph
  and in the flat code.  The compiler compiles later operands while its table holds a
  wrong number for that register; the proof shows that it never asks for it.  Behind the
  chain it does: its belief about the result can be relied on, whatever operands follow, if and
  only if the first operand is no known number or decides the chain by itself.
  `(1 && 0) + 1` is folded to 2 instead of 1.
* Frames: over all runs of `cvm_state_run`, with objects, closures and native
  functions, register 0 holds 0 in every frame and every waiting frame stands behind
  a call; a matching return changes nothing but the result register of that call, up to
  redirects looked through; and a callee that executes `halt` ends the whole run.
* Closures: a captured variable has in every frame of the closure the value it had when
  the closure was made, except that null and undefined are lost.
* Safety: over all runs every pointer in a register, a field or the global leads to an object.
* Expansion and collection: as long as nothing but registers points at redirects
  every collection is right; the exact condition for a field write to keep it so is given.
  Runs of `cvm_state_run` always leave a machine that the collector accepts.

Where code and documentation differ the model follows the code: the collector's blocks
are 32 MB, not the 1 MB of the repository's README.

## Model

| member | source | states |
|---|---|---|
| Values.ToIntRoundTrip | src/value.h:33-42 | every tagged number is a 30-bit integer, and writing it back gives the same word |
| Values.FromIntRoundTrip | src/value.h:33-42 | a number written and read back is the number modulo 2^30; it survives exactly when it fits in 30 bits |
| Values.FromIntEqual | src/value.h:40-42 | two numbers become the same word exactly when they agree modulo 2^30: equal constant-table keys mean equal loaded words |
| Probe.MaskIsRemainder | src/hash_helper.h:8-10 | masking with capacity - 1 is the remainder, for every power of two |
| Probe.NextIndexIsAffine | src/hash_helper.h:8-10 | the wrapped 32-bit probe step is index * 2166136261 + 16777619 modulo the capacity |
| Probe.Period | src/hash_helper.h:8-10 | n affine steps return to their start modulo 2^k exactly when 2^k divides n |
| Probe.SlotsMeet | src/hash_helper.h:8-10 | two probes of one sequence hit the same slot exactly when their distance is a multiple of the capacity |
| Probe.SlotsDistinct | src/hash_helper.h:8-10 | the first capacity probes hit different slots |
| Probe.FullPeriod | src/hash_helper.h:8-10 | from every start every slot is probed within the first capacity probes |
| HashTables.SearchEndsIff | src/hash.c:50-52 | the probe loop of find and set ends if and only if some slot is null or holds the key |
| HashTables.FindIsLookup | src/hash.c:45-60 | on a well-formed table find returns the stored live value, and undefined when there is none |
| HashTables.SetKeepsWellFormed | src/hash.c:62-102 | set keeps probe paths unbroken, keys unique and null slots at key 0, also when it reuses a tombstone |
| HashTables.SetIsUpdate | src/hash.c:62-102 | set changes the map at its key and nowhere else; null and undefined remove |
| HashTables.ContentsSize | src/hash.c:86-98 | the number of entries is the number of live slots and at most the capacity |
| HashTables.FreeSlotEndsSearch | src/hash.c:50-52 | without tombstones and with fewer entries than slots every search ends |
| HashRuns.NormalizeIsLeast | src/hash.h:100-105 | hash_normalize_capacity gives the least power of two that is no smaller than its argument |
| HashRuns.GrownKeeps | src/hash.h:84 | the expansion step keeps the map and leaves a free slot |
| HashRuns.ShrunkKeeps | src/hash.h:85 | the shrinking step keeps the map and leaves a free slot, also right after an expansion |
| HashRuns.SetAndUpdateIsUpdate | src/hash.h:81-86 | set, expand, shrink together change the map at the key only |
| HashRuns.InsertKeepsHealthy | src/hash.h:81-86 | an insert or update always leaves a power-of-two capacity of at least 16, no tombstones and a free slot |
| HashRuns.InsertOnlyRun | src/hash.h:81-86 | every insert and update history ends with a healthy table |
| HashRuns.RemovalsExhaust | src/hash.c:62-102 | removing sixteen absent keys from a new table leaves an empty map whose search for another key never ends |
| Hashes.Hash.Find | src/hash.c:45-60 | the loop returns what the map holds, undefined otherwise |
| Hashes.Hash.Set | src/hash.c:62-102 | the loop and its slot bookkeeping produce exactly the specified table, map and size |
| Hashes.Hash.Rehash | src/hash.c:104-117 | the copy has the map and the info of the source and no tombstones |
| Hashes.Hash.Expand | src/hash.c:119-125 | a new table of twice the capacity with the same map |
| Hashes.Hash.Shrink | src/hash.c:127-133 | a new table of half the capacity with the same map |
| Hashes.Hash.SetAndUpdate | src/hash.h:81-86 | the returned table is the specified one and its map is updated at the key |
| Strings.StringHashVec | src/string_pool.c:37-56 | the two loops compute the word-wise then byte-wise string hash |
| Strings.SearchEnds | src/string_pool.c:144-156 | with an empty slot every search of the pool ends |
| Strings.SeekFinds | src/string_pool.c:144-156 | a search stops at an interned string exactly when its bytes are interned |
| Strings.StoredAdds | src/string_pool.c:70-82 | storing a new string adds its bytes and changes no other |
| StringPools.StringPool.LoadBound | src/string_pool.c:66-68 | stored = size + capacity / 2 - 8 and size <= capacity / 2, so at least eight slots are empty and every search ends |
| StringPools.StringPool.HashInsert | src/string_pool.c:70-82 | the loop stores the string in the free slot its search leads to |
| StringPools.StringPool.Expand | src/string_pool.c:125-142 | a pool of twice the capacity with the same interned strings at the same identity |
| StringPools.StringPool.FindHash | src/string_pool.c:144-156 | returns the interned string with these bytes, null if there is none |
| StringPools.StringPool.InsertVec | src/string_pool.c:178-202 | keeps the load invariant, returns the interned string for these bytes and interns nothing else |
| StringPools.Canonical | src/string_pool.c:178-202 | over every history two inserts return the same string exactly when their bytes are equal |
| Layout.GraphToFlat | src/ir_builder.c:142-190 | any number of graph steps is matched by the flat code |
| Layout.FlatToGraph | src/ir_builder.c:142-190 | the flat code never leaves the list, and when it finishes the graph finishes with the same result |
| Layout.LayoutPreservesMeaning | src/ir_builder.c:142-190 | from any block and for any machine, the flat code finishes with a result exactly when the graph does |
| Backpatch.FillStep | src/ir_builder.c:151-162 | filling one branch moves to an earlier branch to the same block, or ends the chain |
| Backpatch.OpenKeeps | src/ir_builder.c:72-82 | a branch to an unplaced block becomes the head of the chain of exactly the branches to that block |
| Backpatch.ClosedKeeps | src/ir_builder.c:84-92 | a branch to a placed block is emitted resolved |
| Backpatch.PlacedKeeps | src/ir_builder.c:145-164 | placing a block resolves its chain and no other |
| Backpatch.AllPatched | src/ir_builder.c:141-190 | no placeholder is left at the end |
| IrBuilder.BnrElse | src/ir_builder.c:68-93 | emits the conditional branch, resolved or threaded into the chain of its target |
| IrBuilder.JumpTo | src/ir_builder.c:95-139 | emits the return of undefined, nothing for a fall-through, or a jump, resolved or threaded |
| IrBuilder.FillChain | src/ir_builder.c:149-162 | walks the chain in strictly decreasing order and resolves every branch on it |
| IrBuilder.IRBuilder.Destroy | src/ir_builder.c:141-190 | the one-pass layout returns the code of the two-pass layout of the same graph |
| BasicBlocks.BasicBlock.FindInConstantTable | src/ir_builder.c:216-240 | finds the entry of the nearest dominating block, and its caching changes nothing that any block of the chain sees |
| BasicBlocks.BasicBlock.FindInNumericTable | src/ir_builder.c:242-266 | the same for known numbers |
| Tables.CachingKeepsViews | src/ir_builder.c:223-234 | copying a found entry towards the start of the chain leaves every view of the chain as it was |
| IrBuilder.IRBuilder.NewBasicBlock | src/ir_builder.c:61-66 | appends a block below its dominator, which knows what the dominator knows |
| IrBuilder.IRBuilder.Li | src/ir_builder.c:268-296 | the block afterwards is the specified code: constant shared or loaded into the next register |
| IrBuilder.IRBuilder.Arith | src/ir_builder.c:323-482 | the eight arithmetic members: folded when both operands are known, emitted otherwise |
| IrBuilder.IRBuilder.Mov | src/ir_builder.c:502-528 | emits the copy; a known number stays known |
| IrBuilder.IRBuilder.MovUpper | src/ir_builder.c:530-553 | emits the copy to a given register; a known number becomes known for it, otherwise old knowledge stays |
| Arithmetic.CDivMod | src/cvm.c:521-548 | quotients are truncated and remainders take the sign of the dividend |
| Arithmetic.DecodeInjective | src/cvm.c:549-562 | comparing words is comparing values |
| Arithmetic.TagForgetsHighBits | src/value.h:40-42 | cutting a result to 32 bits before tagging it changes nothing |
| Arithmetic.ExecIsApply | src/cvm.c:479-590 | the eight instructions compute the operators of the language, traps included; what these give is `Operators.SumsGive`, `ComparisonsGive` and `QuotientsGive` |
| Arithmetic.NotIsNegate | src/cvm.c:591-603 | so does the negation |
| Arithmetic.FoldingAgrees | src/ir_builder.c:323-330 | for every operator and all numbers the folded immediate loads the word the instruction computes, and folding divides by zero exactly when the instruction would |
| Scopes.JoinScope | src/parse.c:503-529 | the loop over the outer variables gives the joined scopes, in whatever order they come |
| Scopes.LookupIsFind | src/parse_internal.h:117-144 | lookup through the two tables finds the current register in the stack of environments |
| Scopes.AssignIsUpdate | src/parse.c:1300-1305 | an assignment updates the innermost declaration, also through several scopes and before a shadowing declaration |
| Scopes.ScopingRefines | src/parse.c:494-529 | over any sequence of enter, leave, declare and assign the parser fails exactly when the plain stack does, and every lookup agrees |
| Codes.ArithGives | src/ir_builder.c:323-482 | folded or not, the returned register holds what the instruction computes; a trap in the compiler is a trap in the VM |
| Expressions.ExprRuns | src/parse.c:793-1090 | the code of every expression leaves its value in the returned register, or traps when it has none; an expression that does not compile has no value |
| Compilation.StmtsRun | src/parse.c:1307-1384 | the same for statement lists, with every visible variable in its register |
| Compilation.CompiledRuns | src/parse.c:1690-1699 | for every program, arguments and large enough frame: the VM traps exactly when the program fails, and otherwise every variable's register holds its value |
| Compilation.RejectedFails | src/parse.c:813-835 | a program the compiler rejects fails whatever its arguments are |
| Grammar.ReadOperand | src/parse.c:793-1090 | an expression written with the parentheses of the levels is read back; the levels are those of `Precedence.Tighter` |
| Grammar.ReadStmts | src/parse.c:1307-1384 | a written program is read back |
| Parsers.ParseState.Build | src/parse.c:1009-1084 | the builder call for each operator token |
| Parsers.ParseState.ParsePostfixExpr | src/parse.c:793-851 | emits the code of the tree the tokens stand for, and fails when there is none or it does not compile |
| Parsers.ParseState.ParsePrefixExpr | src/parse.c:977-1001 | the same for prefix operators |
| Parsers.ParseState.ParseLevelExpr | src/parse.c:1003-1090 | the same for the three loops over binary operators; what their tokens are read as is `Precedence.ReadRow` |
| Parsers.ParseState.ParseLetStmt | src/parse.c:1309-1354 | the same for declarations |
| Parsers.ParseState.ParseExprStmt | src/parse.c:1202-1215 | the same for assignments |
| Parsers.ParseState.ParseBlockStmt | src/parse.c:1368-1384 | the same for blocks |
| Parsers.ParseState.ParseStatement | src/parse.c:1639-1688 | the same for statements |
| Parsers.ParseState.Parse | src/parse.c:1690-1699 | succeeds exactly when the tokens are a program that compiles, and leaves its code |
| Parsers.TextCompiles | src/parse.c:1690-1699 | compiling the text of a program is compiling the program |
| Machines.ProgramsRun | src/parse.c:1701-1716 | from a program to the machine: the laid-out code traps when the program fails, and otherwise ends with every variable in its register and returns undefined |
| MainFunctions.GetMainFunction | src/parse.c:1701-1716 | the function object of a straight-line program: one register more than the builder used, and the laid-out code |
| MainFunctions.CompileText | src/parse.c:1690-1716 | parse and layout on the tokens of a program: rejected, or the laid-out code of the program they spell |
| MainFunctions.TextRuns | src/parse.c:1690-1716 | the code of the text of a program traps exactly when the program fails, otherwise leaves every variable in its register; a rejected text is a program that fails |
| ShortCircuit.ChainRuns | src/parse.c:1092-1196 | for any operand code, as many blocks as operands need evaluating lead to the end block with the deciding operand, or the last, in the temporary register |
| ShortCircuit.ChainInCode | src/parse.c:1092-1196 | the same in the flat code, with the end block in front of the operands |
| ShortCircuit.StopsAtFirst | src/parse.c:1092-1196 | for any operand code, evaluation stops at the first operand that decides, or at the last, and no earlier one decides |
| Logic.CompileBlind | src/ir_builder.c:242-266 | no expression asks for the known number of a register that no variable and no constant is in |
| Logic.OperandsMean | src/parse.c:1106-1137 | each operand, compiled in the block dominated by the one before while the number known for the temporary register is stale, still leaves its value |
| Logic.LogicRuns | src/parse.c:1092-1196 | for all operand expressions: evaluated up to the first that decides, trapping exactly when one of those has no value, with the value of the chain in the temporary register, every variable in its own, and all other knowledge of the end block true |
| Logic.LogicInCode | src/parse.c:1092-1196 | the same for the flat code of any function that has the blocks of the chain |
| Logic.LogicStops | src/parse.c:1092-1196 | a chain is worth a deciding operand unless none decides, and then its last operand |
| Logic.BeliefOfRun | src/ir_builder.c:530-553 | in one run what the end block believes about the result is right exactly when the first operand is no known number, or decides, or no operand decides and the last is worth the same as the first |
| Logic.BeliefIff | src/ir_builder.c:530-553 | that belief is right whatever operands follow exactly when the first operand is no known number or decides by itself |
| Logic.StaleNumber | src/ir_builder.c:530-553 | `(1 && 0) + 1`: the register of the chain holds 0, but the sum is folded to 2 |
| Lowering.ReadOperands | src/parse.c:1092-1143 | a chain written down is read back as its operands |
| Lowering.LogicText | src/parse.c:1092-1196 | compiling the text of a chain is compiling its operands; its tokens are those of `Connectives.ReadConjunction` and `ReadDisjunction` |
| Lowering.LinkOperand | src/parse.c:1106-1124 | keeps the value, branches on it to the end or a new dominated block, and leaves what the blocks above know |
| Lowering.NextOperand | src/parse.c:1106-1127 | one turn of the loop: the next operand is compiled in a block of its own |
| Lowering.ParseTurns | src/parse.c:1106-1127 | the loop builds the blocks of the operands read, and leaves the knowledge of the first block as it was |
| Lowering.ParseRest | src/parse.c:1106-1137 | with the jump of the last block the chain is complete |
| Lowering.ParseLogicExpr | src/parse.c:1092-1196 | one pass over the tokens leaves the blocks of the chain that their operands compile to, registers, tokens and knowledge of the end block included; the value of a written chain is `Connectives.TextInCode` |
| Lowering.ChainInGraph | src/parse.c:1092-1196 | the graph of a block list that holds such a chain is one the chain theorems apply to |
| Machines.CvmIsVm | src/cvm.c:615-631 | the concrete VM is one of the machines the layout theorem is about; register 0 tests false |
| YoungGens.YoungGenBlock.Allocate | src/young_gen.c:84-94 | null exactly when the block is full, otherwise the next bytes of the block |
| YoungGens.CopyHash | src/young_gen.c:145-164 | the copy has the same kind, info and map; it has half the slots if less than half of more than sixteen are used, and is the same object otherwise |
| YoungGens.YoungGen.NewHash | src/young_gen.c:96-105 | a new empty object of the normalized capacity at a new address, or null when the block is full |
| YoungGens.YoungGen.Evacuate | src/young_gen.c:145-168 | the copy always fits, of an object or of a redirect header, and the original is left behind as a forwarding header |
| YoungGens.YoungGen.MarkChild | src/young_gen.c:171-194 | a slot at a redirect: the loop over the chain only decides whether anything is marked, and then what the slot itself points at is marked, be it the header |
| YoungGens.YoungGen.ScanSlot | src/young_gen.c:170-195 | one turn of the scan: a pointer becomes the new address of what it led to or of a header on the way, other values are left alone |
| YoungGens.YoungGen.Scan | src/young_gen.c:170-195 | the scan marks the pointers of the object in slot order, and every header it copies is held by a field |
| YoungGens.YoungGen.Mark | src/young_gen.c:132-196 | for every heap whose pointers lead to objects it ends, keeps the invariant, returns the one new address of its target, and marks the objects met in depth-first order if every redirect is met after its object, or else copies a header |
| YoungGens.YoungGen.GcEnd | src/young_gen.c:211-229 | the copies are the new heap and the other block is empty |
| Marking.RoomLeft | src/young_gen.c:84-94 | there is always room for one more object or header: each is copied at most once and into no more space than it had |
| Marking.EvacuateKeeps | src/young_gen.c:145-168 | copying one more keeps forwarding one to one and every finished copy right |
| Orders.OrderedIff | src/young_gen.c:170-195 | the traversal meets every redirect after its object exactly when, in the line of all pointers in depth-first order, every redirect stands behind the object it leads to |
| Orders.Append | src/young_gen.c:170-195 | going through one list of pointers and then another is going through both |
| Collections.PlainIsFit | src/cvm.c:70-85 | the heap as programs see it, every field at the object it leads to, is a heap without redirects in its fields |
| Collections.CollectionDone | src/young_gen.c:132-229 | when no header was moved the moved objects are exactly the reachable ones, isomorphic to the heap that programs see, in a block without redirects |
| Collections.CollectionLost | src/young_gen.c:171-194 | when a header was moved some field or root of the new block points into the old one |
| Collections.WalkForwards | src/young_gen.c:132-229 | any path of field reads from a moved object ends in the value, up to forwarding, that it ended in before |
| Vms.VMState.MarkRegister | src/cvm.c:296-303 | a register becomes the new address of what it led to, and exactly the object it leads to is marked |
| Vms.VMState.MarkScenes | src/cvm.c:290-306 | all externals and registers of all scenes are moved, in this order, and nothing else in them changes |
| Vms.VMState.YoungGc | src/cvm.c:283-309 | for every machine whose pointers lead to objects: afterwards they do again if and only if the collection is orderly, and then the moved objects are the reachable ones; no old address is used again, and no more space |
| Vms.OrderlyIff | src/cvm.c:283-309 | a collection is orderly exactly when the global and externals are objects and in the line of pointers met every redirect stands behind its object |
| Expansions.WriteKeepsFit | src/cvm.c:106-121 | a write leaves redirects behind registers only exactly when the value is no pointer or points at an object and, if the object moved, no field, external or global points at the redirect |
| Expansions.FitIsOrderly | src/cvm.c:283-309 | with redirects behind registers only every collection is orderly |
| Losses.RedirectFirst | src/young_gen.c:171-194 | an object whose first pointer is a redirect to another makes the collection from it disorderly |
| Losses.CollectChained | src/young_gen.c:171-194 | the collection of a three-header heap, an object with one field at a redirect, leaves that field pointing into the old block |
| Safety.ValidIsSafe | src/cvm.c:217-251 | a machine that can be collected is one whose runs are safe |
| Safety.RunIsCollectable | src/cvm.c:409-809 | after any run, every pointer of all scenes again leads to an object, as the collector requires |
| Interpreters.Interpreter.Run | src/cvm.c:409-809 | n turns of the loop are n steps, and leave a machine that can be collected |
| HashRuns.FindAfterRun | src/hash.c:41-102 | after any history of hash_set_and_update hash_find returns the last value written to the key, what was there before if there is none, undefined after a removal |
| HashRuns.FindAfterSets | src/hash.c:41-102 | the same for histories of bare hash_set |
| HashRuns.SetsStuckIff | src/hash.c:62-77 | such a history is cut short exactly by a write that finds neither its key nor a null slot |
| Redirects.HopsStep | src/cvm.c:78-81 | every step of the redirect loop comes closer to the end of the chain |
| Redirects.RootIsObject | src/cvm.c:70-85 | a chain ends at an object, which resolves to itself |
| Vms.VMState.GetHashInRegister | src/cvm.c:70-85 | a type error exactly when the register holds no object; otherwise the object at the end of the chain, and the register points at it |
| Aliasing.SetIsTransparent | src/cvm.c:106-121 | after a write every alias of the object reads the updated map and every other object is as before |
| Aliasing.SetKeepsAliases | src/cvm.c:106-121 | no write makes or breaks an alias |
| Aliasing.ExpansionKeepsFields | src/cvm.c:112-120 | after an expansion fields still point at objects exactly when none points at the redirect |
| Vms.VMState.GetField | src/cvm.c:700-714 | returns what the map of the object behind the register holds, and leaves the register pointing at that object |
| Vms.VMState.SetHashInRegister | src/cvm.c:106-121 | writes the object at the end of the chain, or moves it to a larger table, at the next address of the block, behind a redirect |
| Vms.VMState.Write | src/cvm.c:109-120 | the object is updated in place, or rehashed into a larger table that a redirect points at |
| Aliasing.RunsAreTransparent | src/cvm.c:682-699 | over any run of new objects and writes the heap implements a store without tables or redirects |
| Aliasing.GetsAreTransparent | src/cvm.c:700-720 | a get through any alias returns the last value set |
| Frames.ExecuteKeeps | src/cvm.c:464-795 | no instruction changes the size of its frame or register 0, and of the other registers at most the destination and the register whose redirects it looks through |
| Frames.StepKeeps | src/cvm.c:409-809 | every turn, for every instruction, keeps that each frame has the registers of its function with 0 in the first, and that each frame below the top waits behind a call |
| Frames.RunKeeps | src/cvm.c:409-809 | the same over whole runs |
| Frames.CollectionKeeps | src/cvm.c:290-306 | and over a collection between two instructions |
| Frames.StepBelow | src/cvm.c:448-463 | one step above waiting frames leaves them alone, returns to them, stops with an error, or halts the whole machine |
| Frames.BottomUntouched | src/cvm.c:721-755 | as long as a run stays above some frames they do not change; it comes down to them by a return only, and can finish above them by `halt` only |
| Frames.CallReturns | src/cvm.c:721-755 | a matching return resumes behind its call with the value in the result register; every other register is as it was, up to redirects looked through |
| SingleFrame.FlatStepIsStep | src/cvm.c:464-636 | on straight-line code, jumps and returns one step of the register machine of the layout is one step of the machine with frames |
| SingleFrame.FlatRunIsRun | src/cvm.c:464-636 | the same for whole runs |
| SingleFrame.ProgramRunsInFrame | src/cvm.c:409-809 | a compiled straight-line program, as the main function of any machine, ends in an error if the program fails and otherwise returns undefined |
| Closures.FrameHolds | src/cvm.c:334-344 | a new frame holds the captured values, then the arguments from register 1 on, and is undefined elsewhere |
| Closures.CaptureReturns | src/cvm.c:759-778 | in every frame of a closure a captured register holds the value it had when the closure was made, unless that was null or undefined, which are lost |
| Closures.ClosureIsMade | src/cvm.c:759-778 | filling a new closure always ends: the instruction fails only when the block is full |
| Safety.ExecuteSafe | src/cvm.c:464-795 | no instruction makes a pointer that leads nowhere, and what led to an object still does |
| Safety.CallSafe | src/cvm.c:721-741 | the same for calls |
| Safety.StepSafe | src/cvm.c:409-809 | every step keeps that all pointers in registers, fields and the global lead to objects |
| Safety.NothingDangles | src/cvm.c:70-85 | at any point of a run a register can be followed to an object exactly when it holds a pointer |
| Interpreters.Interpreter.NewClosure | src/cvm.c:759-778 | the loop over the captures fills the closure as the step says |
| Interpreters.Interpreter.GetObject | src/cvm.c:700-715 | the read, redirects and the key by the kind of object included, is that of the step |
| Interpreters.Interpreter.SetObject | src/cvm.c:682-694 | the write, with its expansion, is that of the step; what it does to the fields is `HeapInstructions.SetObjectStep` |
| Interpreters.Interpreter.PushFrame | src/cvm.c:123-136 | a frame with 0 in register 0, the global in register 1 and undefined elsewhere |
| Interpreters.Interpreter.SetupFrame | src/cvm.c:334-344 | the loops over arguments and captured slots leave the registers that the step says |
| Interpreters.Interpreter.Call | src/cvm.c:721-741 | a native function is called, or the frame of a closure pushed, as the step says; which object is which is `HeapInstructions.ClosureCallStep` and `NativeCallStep` |
| Interpreters.Interpreter.Return | src/cvm.c:745-755 | the last frame ends the run; otherwise the caller receives the value in the register of the instruction in front of its pc |
| Interpreters.Interpreter.Turn | src/cvm.c:409-809 | one turn of the loop on the VM's own objects is one step of the machine that the theorems are about |
| IrBuilder.PushBody | src/ir_builder.c:166-173 | the copy loop appends the body and leaves every open chain as it was |
| IrBuilder.PlaceBlock | src/ir_builder.c:145-173 | placing one block: its branches are resolved, its entry noted, its body copied |
| IrBuilder.EndBlock | src/ir_builder.c:175-182 | ending one block: after the i-th turn the list is the symbolic code of the first i blocks |
| Parsers.ParseState.ParseOperand | src/parse.c:1009-1017 | one more operator and operand extend the compiled left part |
| Parsers.ParseState.ParseValue | src/parse.c:1335-1343 | the value of a declaration is copied when no register was allocated for it |
| Parsers.ParseState.ParseDeclaration | src/parse.c:1314-1352 | one declaration: duplicates are errors, a missing value is undefined |
| Parsers.ParseState.ParseStatements | src/parse.c:1375-1378 | the loop over statements compiles the list up to the closing brace or the end |
| Vms.VMState.Create | src/cvm.c:217-251 | the new VM is in the state that collections need and keep |
| Operators.SumsGive | src/cvm.c:479-520 | sums, differences and products of two number words are the words of the sum, difference and product |
| Operators.ComparisonsGive | src/cvm.c:549-603 | comparisons and the negation give the word of 1 or 0; equality compares words of any kind |
| Operators.DivisionIsUnique | src/cvm.c:521-548 | there is one quotient and remainder with a remainder smaller than the divisor and of the sign of the dividend |
| Operators.QuotientsGive | src/cvm.c:521-548 | division and remainder give the words of those, and trap for a divisor of 0 |
| Operators.NumbersMean | src/parse.c:1004-1090 | the operators of the language on numbers: 30-bit sums, differences and products, and 1 or 0 for the six comparisons |
| Operators.QuotientsMean | src/parse.c:1004-1024 | `/` and `%` on numbers |
| Operators.OthersMean | src/parse.c:1046-1090 | values that are no numbers can be compared for equality, and for nothing else |
| Operators.PrefixesMean | src/parse.c:977-1001 | `!e` is 1 for 0 and 0 for other numbers, `-e` the negated number |
| Language.NameMeans | src/parse_internal.h:117-144 | a name means its innermost declaration, and an update changes that one |
| Language.AssignmentMeans | src/parse.c:1202-1215 | an assignment gives the innermost declaration of the variable the value, and fails without either |
| Language.DeclarationMeans | src/parse.c:1309-1354 | declarations add variables to the innermost block from left to right, each once, undefined without a value |
| Language.StmtAdds | src/parse.c:1368-1384 | a block leaves none of its variables behind and takes none away; only declarations add any |
| Language.OneAfterAnother | src/parse.c:1375-1378 | running a list of statements is running its parts one after the other |
| Precedence.ReadSpelled | src/parse.c:1003-1090 | an expression written with parentheses around looser left operands and no tighter right operands, and no others, is read back, precedence given by sets of operators |
| Precedence.ReadRow | src/parse.c:1003-1090 | `a p b q c` is `a p (b q c)` if q is in {*, /, %} and p is not, or q in {+, -} and p a comparison, otherwise `(a p b) q c`, for all operands without bare operators |
| Connectives.ReadConjunction | src/parse.c:1092-1143 | operands with `&&` between them are read by the parser of `&&`, which stops in front of anything else, `||` included |
| Connectives.ReadDisjunction | src/parse.c:1145-1196 | operands with `||` between them are read by the parser of `||` |
| Connectives.ValueIs | src/parse.c:1092-1196 | a chain is worth its last operand evaluated: `&&` goes on behind true values, `||` behind 0, null and undefined |
| Connectives.PairMeans | src/parse.c:1092-1196 | `a && b` is a if that counts as false and otherwise b, `a || b` the other way round |
| Connectives.TextInCode | src/parse.c:1092-1196 | from the tokens to the flat code: a written chain leaves the value of the last operand evaluated in its register, or traps if that has none |
| Instructions.LoadSteps | src/cvm.c:464-795 | `li`, `lstr`, `null`, `undefined` and `mov`: the word in rd, and nothing else changed |
| Instructions.OperatorSteps | src/cvm.c:479-590 | the eight operators on registers: sums, truncated quotients, 1 or 0, or a trap |
| Instructions.NotStep | src/cvm.c:591-603 | 1 for 0, 0 for other numbers, a trap otherwise |
| Instructions.JumpSteps | src/cvm.c:615-639 | a jump goes to its operand; a branch is relative to the next instruction and taken for undefined, null and 0 |
| Instructions.ReturnSteps | src/cvm.c:745-755 | the last frame ends the run with the value; otherwise the frame below goes on with it in the register of the call in front of its pc; `halt` ends the run |
| HeapInstructions.NewObjectStep | src/cvm.c:654-681 | a new address of an object or array with 16 slots and no fields, every other address reading as before; stops when 148 bytes do not fit |
| HeapInstructions.SetObjectStep | src/cvm.c:682-694 | every alias of the object in rd reads the fields with the word of rs under the name in rt, all others read as before; type errors trap |
| HeapInstructions.SetObjectGoesOn | src/cvm.c:682-694 | an assignment is carried out if there is a slot for the name and room for a larger table; without such a slot its search never ends |
| HeapInstructions.GetObjectStep | src/cvm.c:700-715 | rd gets what the object in rs reads under the name in rt, or undefined; type errors trap |
| HeapInstructions.NewClosureStep | src/cvm.c:759-778 | a new closure of the given function with the captured registers as fields, null and undefined left out |
| HeapInstructions.NativeCallStep | src/cvm.c:721-731 | memory and rd are what the native function returns for the word in rt; what is neither native nor a closure traps |
| HeapInstructions.ClosureCallStep | src/cvm.c:732-741 | the new frame is at the start of the closure's function, its registers holding the fields of the object in rs as captured values and those of the object in rt as arguments; the caller waits behind the call |
| HeapInstructions.ClosureCallGoesOn | src/cvm.c:732-741 | such a call is carried out if the function has registers for arguments and captured values and the search for every argument ends |
| HashRuns.Thresholds | src/hash.h:77-79 | expansion above three quarters, shrinking below one half and above sixteen slots |
| HashRuns.CapacityAfter | src/hash.h:81-86 | after an update the table has doubled exactly when it was full, and halved exactly when less than half is used; from three quarters on it has no tombstones |
| Aliasing.GrowsWhen | src/cvm.c:106-121 | a field write doubles the table exactly when more than three quarters are taken afterwards |
| Codes.ConstantsAreShared | src/ir_builder.c:268-296 | a constant is loaded once |
| Codes.KnownIsFolded | src/ir_builder.c:323-482 | an operation on known numbers leaves at most the load of its result, any other one instruction on a new register |
| Layout.BlockSize | src/ir_builder.c:68-139 | a block takes its instructions, one for a branch, and behind it nothing for a fall-through, one for a jump, two for a return |
| Strings.HashOfFive | src/string_pool.c:37-56 | the hash of five bytes: a word into 129 times the length, a signed byte into 9 times that |
| Strings.XorAt | src/string_pool.c:37-56 | exclusive or, bit by bit |

## Left out

- The lexer, file reading, printing, `libs.c`, `inst_output`, error messages, growth of `inst_list`, and every `free`: input, output and storage.
- The intrusive list: block lists, frame lists and scope lists are sequences.
- Objects are a map from addresses to values, so a block's bytes, the order of an object's fields in memory and the userdata bitmaps are not modelled; neither are userdata destructors.
- YoungGens.YoungGenBlock.Allocate: the C code returns `block->content + block->allocated`, which counts the block header twice; the model returns base + allocated, so the address arithmetic of the last bytes of a block is not covered.
- String pages: strings are objects with an identity; their offsets in 4096-byte pages are not modelled.
- Keywords are tokens of their own: an inner block that declares a variable named `let` and so switches the keyword off is not modelled.
- The parser methods return nothing where the tokens leave the modelled fragment (calls, member access, strings, object and array literals, functions, `if`, `while`, `return`); the C code goes on with those.
- `if`/`else` and `while`: their merging of variables can write registers that hold shared constants, so the theorem for straight-line code does not extend to them.
- Functions and captures in the compiler, `import`, native functions that open nested scenes, computed-goto dispatch.
- Native functions are a parameter of the machine that sees the memory and its argument; how they use the registers of the running scene is not modelled.
- A collection in the middle of an instruction: a full block stops the modelled machine, where the C code collects and tries again.  That a run with collections between its turns computes the same as one without is not proved.
- Reference equality between aliases of an expanded object.
- Scopes.LookupIsFind: for one function; capture from outer functions is not part of it.
- Parsers.ParseState.ParsePostfixExpr: strings, calls, member access, function, object and array literals count as errors.
- Parsers.ParseState.ParseExprStmt: assignments to fields and call statements count as errors.
- Parsers.ParseState.ParseStatement: `if`, `while`, `return` and `halt` count as errors.
- Lowering.ParseLogicExpr: a chain of `&&` inside one of `||`, and a chain in parentheses, count as errors.
- YoungGens.YoungGen.NewHash: capacity 0, which `cvm_create_light_function` asks for, is excluded, since `__builtin_ctz(0)` is undefined.
- The builder's tables of constants are maps and store plain register numbers; that a hash table behaves as a map is proved for `Hashes`.
- HashRuns.InsertOnlyRun: for histories of fewer than 2^29 writes, since capacities are 32-bit words.
- Hashes.Hash.Find: requires that the search ends; when it does is `HashTables.SearchEndsIff`.  The same holds for every search.
- IrBuilder.IRBuilder.Destroy: for code shorter than 2^29 instructions; longer code does not fit the shifted links.
- IrBuilder.IRBuilder.Arith: stands for eight members of the C file that differ in the operator only.
- Parsers.ParseState.ParseLevelExpr: stands for three functions of the C file that differ in their operators only.
- Compilation.CompiledRuns: for functions of fewer than 65536 registers, since a register field has 16 bits.
- Compilation.RejectedFails: for programs whose registers are known to fit, by a bound that is read off the program.
- Vms.VMState.YoungGc: the new block after a disorderly collection is described, but what later reads of the lost pointers return is not.
- Vms.VMState.SetHashInRegister: without a collection: if a larger table is needed there is room for it.
- Vms.VMState.Write: like SetHashInRegister.
- Interpreters.Interpreter.NewClosure: without a collection.
- Interpreters.Interpreter.SetObject: without a collection.
- MainFunctions.GetMainFunction: for functions of one block; the layout of several is `IrBuilder.IRBuilder.Destroy`.
- Interpreters.Interpreter.Turn: for turns that do not access memory outside a frame or the code, search for ever or need a collection, and native functions that allocate in the given block.
- Safety.StepSafe: native functions are assumed to leave such a memory and keep objects where they are.
- Frames.StepKeeps: an instruction whose registers lie outside its frame stops the machine, where the C code writes there.
- Frames.CallReturns: for runs without a collection, which would rename the addresses in the caller's registers.
