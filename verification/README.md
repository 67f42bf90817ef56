# LuxCC: a verified model of the toolchain's hardest parts

LuxCC is a C toolchain: preprocessor, compiler with an intermediate code of quads, code generators, assembler, linker and C
library. This project models the parts of it that rest on a theorem no single function shows, and proves the theorems.
`dafny verify dfyconfig.toml` checks everything.

| module | what is modelled | main results |
|---|---|---|
| Ic | addresses and quads | shared by Dflow, Simplify and the ARM modules |
| Dflow | block summaries, the LiveOut solver, the backward scan | the solver computes exactly the path definition of liveness; summary and scan agree, except exactly for statics assigned only after a call that may read them |
| Liveness | what can be observed of quads, blocks and paths | the computed sets suffice for every observation in every run, and for one quad they hold exactly the names that decide something |
| ArmMachine, ArmState, ArmAlloc, ArmStores, ArmCgen, ArmClobber | quads to ARM for word-sized straight-line blocks | from any machine, the emitted code leaves every name live on exit in its home with the value the quads compute; for `*p = x`, which can be translated wrongly, what the code does instead, exactly when, and a compiled block that shows it; every instruction emitted can be encoded, and a literal pool follows every 512 |
| JumpTable | dispatch of `switch` | range check and table lead where a linear search does, for every value |
| Lowering, LoweringEmit | expressions and structured statements to labels and jumps | termination and final state are the same for source and quads, in both directions |
| Cfg, LoweredCfg | basic blocks, flow graph, depth-first numbering | blocks partition the code, edges are the transfers of control; every lowered function can be cut into blocks |
| Simplify | `ic_simplify` | every quad keeps its meaning in every state, exactly if no wide power of two becomes a shift |
| LibLux | 64-bit arithmetic from words | products, quotients, shifts; signed division right exactly on the ordinary operands |
| Heap | `malloc`, `free`, `realloc` | the headers tile the heap; each operation's effect on the client's blocks and their contents, and exactly when a request fails |
| Qsort | `qsort` | a permutation for any comparison function, sorted for every order, 30 stack entries suffice |
| NumText | `_strtoxll`, `_number`, integer conversions | parser against the meaning of a string, printer against what the standard asks for, and the round trip, in the written base or in base 0 |
| Macro | rescanning of object-like macros | markers and flags compute the recursive expansion; all macros are enabled at the end of a line |
| IfExpr | `#if` expressions | what is written evaluates to its value, and nothing else is accepted; a op b op c groups as the standard's operator classes demand |
| LitPool | literal pools | the generator's rule keeps literals in reach; in the assembled function every line's word stands in order, every load reads its own literal, and control passes around every pool |
| Plt | PLT, GOT and relocations of the four targets | tables in step, stubs decode to their own slot, relocation and PLT0, PLT0 to the linker's slots, and a slot not yet bound to PLT0 |

Methods over mutable state follow the imperative code; each is proved against a function or predicate, and the lemmas are about
those. "State" below means the values the quads or the source program compute with.

## Where the code and what it promises part

- `arm_ind_asn` leaves the register of its pointer unpinned when the pointer is already in one. If that register is r4, no
  register is empty or holds an address-taken variable, and x must be loaded, x is loaded into r4 and the code for `*p = x`
  stores x at address x (ArmAlloc.Clobbers, ArmCgen.Generator.ArmIndAsn). Nine names with a next use are needed for that
  (ArmStores.UncrowdedSafe); ArmClobber.LosesStore compiles a block in which it happens.
- The last mask of `is_representable_in_imm12` is 0x3F0 where the rotation gives 0x3FC: a few numbers that an instruction could
  carry, such as 0x104, are loaded from the pool instead; none is accepted wrongly (ArmMachine.ImmediateEncodes,
  ArmMachine.NotAccepted).
- `live_init_block` lets a call read only the statics assigned earlier in the code, while the annotation scan uses all of them: a
  static first assigned after a call can be taken for dead although the next round's call reads it (Dflow.GatheredExactly,
  Dflow.StaticTakenForDead).
- `ilog2` takes a 32-bit argument, so `ic_simplify` turns a multiplication or unsigned division by 2^32 and above into a shift
  by -1. It also divides constants by a constant zero while compiling, and a rewritten address entry that another quad
  uses changes that quad (Simplify).
- `__sdivmod64` is wrong for a most negative divisor, and for the most negative dividend with a divisor above 2^62 in magnitude
  (LibLux.SDivMod64 states exactly when).
- A field width smaller than the sign or the 0x of a number makes the size_t `min_width` wrap around, and the field is padded to
  2^32 characters more than its width. `_number` cuts a precision above 32 down to 32, and writes nothing for `%#.0o` of zero,
  where a 0 is asked for (NumText.Convert states that these three are all).
- A request close to the end of size_t wraps around in the computation of heap units, and one of 2^31 bytes or more makes `sbrk`
  move the break backwards, or for the largest requests forwards by 8 bytes, while the heap counts all units as its own
  (Heap.UnitsSuffice, Heap.UnitsBound, Heap.IncrementExact).
- A dense `switch` whose values span more than an int is given a jump table of negative or no size
  (JumpTable.Switch, JumpTable.ThreeValuesOverflow).
- `#if` evaluates both operands of `&&`, `||` and both arms of `?:`, so that an operand that is not needed can still divide by
  zero (IfExpr.UnneededOperandTraps; IfExpr.DeliversLazyValue says exactly when that matters).
- An x86-64 stub has 32 bits for the distance to its GOT slot (Plt.FarSlotMissed).

## Model

| member | source | states |
|---|---|---|
| Dflow.AddUEVar | src/dflow.c:291-293 | an operand read before any definition in the block joins UEVar, others leave it alone |
| Dflow.SummarizeQuad | src/dflow.c:283-395 | one quad's part of UEVar and VarKill: its uses, the names calls and indirect loads read, with the statics modified so far, and its definition; an assignment to a static adds to those |
| Dflow.LiveInitBlock | src/dflow.c:271-401 | UEVar is what the block reads before defining it, where a call reads the statics modified so far (plus those in the exit block); VarKill what it defines; the set of modified statics grows by the block's |
| Dflow.GatherInfo | src/dflow.c:418-437 | the summaries of all blocks, each with the statics modified before it |
| Dflow.GatheredMisses | src/dflow.c:380-384 | what is exposed with all modified statics known is what the pass finds and what its calls may read of statics modified only later |
| Dflow.GatheredExactly | src/dflow.c:380-384 | a block's summary is complete iff what its calls may read of statics modified only later is exposed anyway |
| Dflow.StaticTakenForDead | src/dflow.c:327-330 | a loop in which a static assigned in one round and read by the call of the next is taken for dead |
| Dflow.ScanBackSplit | src/dflow.c:515-640 | scanning one more quad at the end of a block backwards is scanning the block from what that quad makes live |
| Dflow.SummaryMatchesScan | src/dflow.c:271-401 | for every block and any fixed set of modified statics, scanning back from any set to the leader gives what the block exposes plus the set without VarKill |
| Dflow.NextUseIsLive | src/dflow.c:519-640 | at every point of a block the names with a next use are live |
| Dflow.OperandTable.UpdateTar | src/dflow.c:527-544 | a target's liveness and next-use bits are read off the sets, and the name leaves both |
| Dflow.OperandTable.UpdateArg1 | src/dflow.c:545-563 | a first operand's bits are read off the sets, and the name enters both |
| Dflow.OperandTable.UpdateArg2 | src/dflow.c:564-582 | a second operand's bits are read off the sets, and the name enters both |
| Dflow.OperandTable.ScanQuad | src/dflow.c:584-639 | one step of the backward scan: the quad's six bits, and the sets before it |
| Dflow.OperandTable.AnnotateBlock | src/dflow.c:515-640 | after the scan of a block every quad carries the bits of liveness and next use behind it, and live-in is what the block exposes, all modified statics known, plus LiveOut without VarKill |
| Dflow.SolutionCoversPaths | src/dflow.c:437-470 | any fixed point of the equations contains every name some path reads before redefining it |
| Dflow.JoinedIsLive | src/dflow.c:437-470 | from a sound assignment the right-hand side of an equation yields only names that are live on some path |
| Dflow.UpdateStaysSound | src/dflow.c:437-470 | an update keeps the assignment sound and shrinks what is missing |
| Dflow.SoundSolutionIsExact | src/dflow.c:437-470 | a sound fixed point is exactly the path definition: the least fixed point |
| Dflow.NewOut | src/dflow.c:447-459 | the union over the successors of UEVar plus LiveOut without VarKill |
| Dflow.Relax | src/dflow.c:447-466 | one block's set is brought up to date; reports whether it changed |
| Dflow.Sweep | src/dflow.c:440-467 | one pass over the post-order keeps soundness; without a change every equation holds |
| Dflow.LiveOut | src/dflow.c:404-470 | the iteration ends in a solution of the equations, and a name is in LiveOut(b) iff a non-empty path from b reveals it |
| Liveness.LiveSuffices | src/dflow.c:584-639 | whatever operators, memory and callees do, two states that agree on the names live before a quad see the same of it (value, delivered operand, jump) and agree on what is live behind it |
| Liveness.BlockLiveSuffices | src/dflow.c:515-640 | and so for a block and the set the backward scan ends with |
| Liveness.DeadTargetUnseen | src/dflow.c:527-544 | a target whose bit says that it is dead may be given any value: the rest of the block shows the same and ends alike on LiveOut |
| Liveness.LiveOutSuffices | src/dflow.c:437-470 | states that agree on LiveOut of a block show the same along every path that follows: no other name matters to any run |
| Liveness.LiveExactly | src/dflow.c:584-639 | a name is live before a quad iff it decides something: some meaning and two states that differ in it alone can be told apart by the quad or by a name live behind it |
| ArmMachine.RunSnoc | src/arm_cgen/arm_cgen.c:104-117 | running the code with one more instruction is running it and then stepping |
| ArmMachine.ImmediateEncodes | src/arm_cgen/arm_cgen.c:553-571 | the numbers that eight bits rotated right by an even amount can say are those the masks accept, and those the right last mask 0x3FC would |
| ArmMachine.NotAccepted | src/arm_cgen/arm_cgen.c:555-564 | 0x104 can be encoded but is not accepted |
| ArmMachine.BitwiseMeans | src/arm_cgen/arm_cgen.c:1200-1282 | and, or and xor of words hold at each bit position what the operator says |
| ArmMachine.ArithUndone | src/arm_cgen/arm_cgen.c:1048-1120 | sums, differences and products modulo 2^32, by what undoes or repeats them |
| ArmState.SlotAvailable | src/arm_cgen/arm_cgen.c:324-351 | a temporary without a slot can be given one, and distinct temporaries have distinct slots |
| ArmState.HomesDistinct | src/arm_cgen/arm_cgen.c:324-351 | no two names share a home in memory |
| ArmState.StoreKeepsOthers | src/arm_cgen/arm_cgen.c:640-710 | storing a name to its home leaves the location of every other live name intact |
| ArmState.DropRegKeepsTables | src/arm_cgen/arm_cgen.c:217-237 | emptying a register keeps the two descriptor tables inverse to each other |
| ArmState.DropRegKeepsSim | src/arm_cgen/arm_cgen.c:217-237 | a register whose name is in its home, or dead, may be emptied without losing a live value |
| ArmState.EnterKeepsTables | src/arm_cgen/arm_cgen.c:785-801 | entering a name in a free register keeps the tables inverse |
| ArmState.CondOfCorrect | src/arm_cgen/arm_cgen.c:1383-1555 | the condition codes chosen for a comparison hold exactly when it does, signed or unsigned |
| ArmState.ScannedFromBits | src/dflow.c:504-646 | the bits left in the operand table are those the translation of the block relies on |
| ArmAlloc.MidwayStep | src/arm_cgen/arm_cgen.c:2421-2434 | once a quad is translated the rest of the block remains, from the state after it |
| ArmAlloc.MidwayEnd | src/arm_cgen/arm_cgen.c:2421-2434 | at the end of a block all registers are free and every name live on exit is in memory with its value |
| ArmAlloc.FirstFreeFinds | src/arm_cgen/arm_cgen.c:266-272 | the search of get_reg0 finds an empty register, or all are taken |
| ArmAlloc.SpillAliasedStep | src/arm_cgen/arm_cgen.c:251-259 | one register of the pass: emptied iff it holds an address-taken variable, all other table entries as before |
| ArmAlloc.ClobbersMeans | src/arm_cgen/arm_cgen.c:1876-1916 | a condition on the tables before *p = x, and exactly it, makes x be loaded into the register of p |
| ArmAlloc.StoreRightExactly | src/arm_cgen/arm_cgen.c:1876-1916 | the code for *p = x leaves memory as it should iff it does not clobber p, or p equals x, or the words at p and x equal x already |
| ArmAlloc.StoredExactly | src/arm_cgen/arm_cgen.c:1914-1914 | after the emitted code the word at p is x iff p was not clobbered, or p equals x, or the word was x before |
| ArmAlloc.StoreThroughKeepsSim | src/arm_cgen/arm_cgen.c:1914-1914 | a store to any address keeps machine and quads together, on all names if a pointer may point there, else on the address-taken variables |
| ArmAlloc.NothingLost | src/arm_cgen/arm_cgen.c:2421-2434 | a block in which the allocator clobbers no store does what its quads do |
| ArmStores.AfterSound | src/arm_cgen/arm_cgen.c:759-801 | the tables stay inverse to each other and only names with a next use stay in registers, for every quad |
| ArmStores.ClobbersCrowded | src/arm_cgen/arm_cgen.c:1876-1916 | a clobbered store needs nine names with a next use |
| ArmStores.UncrowdedSafe | src/arm_cgen/arm_cgen.c:2421-2434 | a block whose stores of names through pointers have at most eight names with a next use before them loses no store |
| ArmStores.FewNamesUncrowded | src/arm_cgen/arm_cgen.c:2421-2434 | so it is for every block that reads at most eight names |
| ArmCgen.IsRepresentableInImm12 | src/arm_cgen/arm_cgen.c:553-571 | true iff the number fits one of the sixteen masks |
| ArmCgen.Generator.constructor | src/arm_cgen/arm_cgen.c:2391-2531 | a function starts with all registers free and no slot handed out |
| ArmCgen.Generator.Emit | src/arm_cgen/arm_cgen.c:104-117 | the ghost machine is always the result of running the code emitted, each instruction of which can be encoded; a pool break follows exactly when the counter is full, so that one stands behind every 512th instruction |
| ArmCgen.Generator.DumpAndLink | src/arm_cgen/arm_cgen.c:94-102 | one pool break is appended, only where 512 instructions stand behind the last one, the counter restarts, and the code's result is unchanged |
| ArmCgen.Generator.GetTempOffs | src/arm_cgen/arm_cgen.c:324-351 | the temporary has a slot of its own afterwards, and every other name keeps its home |
| ArmCgen.Generator.FreeTemp | src/arm_cgen/arm_cgen.c:353-363 | the temporary has no slot afterwards, and every other name keeps its home |
| ArmCgen.Generator.ArmStore | src/arm_cgen/arm_cgen.c:640-710 | the name's home holds the register's value, every other word of memory is as before; an offset beyond 4095 goes through the scratch register |
| ArmCgen.Generator.ArmLoad | src/arm_cgen/arm_cgen.c:381-472 | the register holds the operand's value, constant, variable or temporary |
| ArmCgen.Generator.SpillReg | src/arm_cgen/arm_cgen.c:217-237 | the register and the table entry of its name are cleared, no others; the name is safe at home, no live value is lost |
| ArmCgen.Generator.GetReg0 | src/arm_cgen/arm_cgen.c:262-285 | the lowest empty register, else the lowest not pinned, emptied: there always is one, and no live value is lost |
| ArmCgen.Generator.GetReg | src/arm_cgen/arm_cgen.c:287-295 | the first operand's register if that operand is dead after the quad, else a free one |
| ArmCgen.Generator.ArmGetOperand | src/arm_cgen/arm_cgen.c:573-593 | the operand, immediate or register, denotes the value of the second argument |
| ArmCgen.Generator.UpdateArgDescriptors | src/arm_cgen/arm_cgen.c:759-783 | a name without a next use leaves its register, stored first if it is live |
| ArmCgen.Generator.UpdateTarDescriptors | src/arm_cgen/arm_cgen.c:785-801 | the target is where its value is needed: kept in the register if it has a next use, stored if only live, dropped if dead |
| ArmCgen.Generator.ArmArith | src/arm_cgen/arm_cgen.c:1048-1282 | add, sub, mul, and, or, xor: tables, pins and every live value agree with the quads afterwards |
| ArmCgen.Generator.ArmRelational | src/arm_cgen/arm_cgen.c:1383-1555 | the six stored comparisons likewise |
| ArmCgen.Generator.ArmUnary | src/arm_cgen/arm_cgen.c:1557-1617 | neg, cmpl, not and assignment likewise |
| ArmCgen.Generator.ArmAddrOf | src/arm_cgen/arm_cgen.c:1679-1686 | the address of a variable likewise |
| ArmCgen.Generator.SpillAliasedObjects | src/arm_cgen/arm_cgen.c:247-260 | exactly the registers with address-taken variables are emptied, and every live value is kept |
| ArmCgen.Generator.ArmInd | src/arm_cgen/arm_cgen.c:1688-1730 | a load through a valid pointer reads what the quads read, aliased variables included |
| ArmCgen.Generator.ArmIndAsn | src/arm_cgen/arm_cgen.c:1811-1920 | the emitted code stores x at p, or at address x exactly if the tables before the call clobber p; the word at p is x afterwards iff not clobbered, p equals x, or it was x before |
| ArmCgen.Generator.TranslateQuad | src/arm_cgen/arm_cgen.c:2335-2349 | whatever the operator, tables and machine after the quad are as specified, for all names live then |
| ArmCgen.Generator.TranslateBlock | src/arm_cgen/arm_cgen.c:2421-2434 | a block whose quads carry the scan's bits leaves every name live on exit at home, with the value the quads give it, clobbered stores going to x; all registers are free |
| ArmCgen.Generator.CompileBlock | src/arm_cgen/arm_cgen.c:2421-2434 | backward scan and translation together: run from any machine whose memory holds what the block reads from outside, the code appended leaves each live-out name and all other memory as the quads do, clobbered stores going to x; as the quads do without exception in an uncrowded block; every instruction appended can be encoded, with a pool after each 512 |
| ArmClobber.DefinitionHolds | src/arm_cgen/arm_cgen.c:262-285 | each of eight definitions takes the next register, the pointer r4 |
| ArmClobber.AllUsed | src/dflow.c:519-640 | all of the eight names and x have a next use up to the store |
| ArmClobber.CodeRuns | src/arm_cgen/arm_cgen.c:1811-1920 | what the block's code leaves at the pointer's target, and what its quads leave there |
| ArmClobber.LosesStore | src/arm_cgen/arm_cgen.c:1811-1920 | a block compiled by the generator: from any machine whose x is another heap address, the code leaves the word p points to as it was, the quads make it x |
| JumpTable.SearchFinds | src/arm_cgen/arm_cgen.c:2308-2327 | with distinct values the search ends at the matching case's label |
| JumpTable.SearchMisses | src/arm_cgen/arm_cgen.c:2308-2327 | without a match it ends at the default |
| JumpTable.LinearSearches | src/arm_cgen/arm_cgen.c:2308-2327 | the compare-and-branch chain goes where the search goes, for every scrutinee |
| JumpTable.EmitLinear | src/arm_cgen/arm_cgen.c:2308-2327 | emits exactly that chain |
| JumpTable.FindBounds | src/arm_cgen/arm_cgen.c:2218-2239 | the smallest and the largest case value |
| JumpTable.PlaceCases | src/arm_cgen/arm_cgen.c:2271-2284 | each case fills its own slot, and the empty slots number interval minus cases |
| JumpTable.FillHoles | src/arm_cgen/arm_cgen.c:2285-2291 | counting down `holes` stops inside the table with every slot filled as the search demands |
| JumpTable.BuildTable | src/arm_cgen/arm_cgen.c:2267-2300 | slot k holds the label the search finds for min + k |
| JumpTable.TableSearches | src/arm_cgen/arm_cgen.c:2247-2266 | range check, subtraction and table lead where the search does, for every 32-bit scrutinee |
| JumpTable.Switch | src/arm_cgen/arm_cgen.c:2194-2328 | table or chain, the code goes where the search goes for every scrutinee; no code can be made iff a table is chosen although the span overflows an int |
| JumpTable.ThreeValuesOverflow | src/arm_cgen/arm_cgen.c:2241-2243 | the values INT_MIN, 0 and INT_MAX do that |
| Lowering.EvalFrame | src/ic.c:2737-2765 | an expression changes only the variables it assigns |
| Lowering.EvalLocal | src/ic.c:2737-2765 | value and effects depend only on the variables that occur |
| Lowering.Commutes | src/ic.c:2283-2335 | operands that do not interfere may be lowered in either order |
| Lowering.WhileUnfolds | src/ic.c:1597-1628 | the loop as lowered means test, body and the loop again |
| Lowering.ForUnfolds | src/ic.c:1664-1713 | for means its first part, then test, body, step and the loop again |
| Lowering.Chain | src/ic.c:245-271 | runs of the quads compose |
| Lowering.FindAt | src/ic.c:327-331 | a label emitted once is found where it stands |
| Lowering.TailSim | src/ic.c:2858-2869 | the end of a && or or-expression sets 1 or 0 according to the label entered |
| Lowering.ShortSim | src/ic.c:2840-2903 | the right operand of && and or runs exactly if the left one leaves the result open |
| Lowering.CondSim | src/ic.c:1394-1400 | a controlling expression reaches its true or false label according to its value, in the state its side effects make |
| Lowering.LogicSim | src/ic.c:2840-2903 | the value form computes 1 or 0 |
| Lowering.CondExpSim | src/ic.c:2812-2838 | ?: evaluates one arm and delivers its value |
| Lowering.LeftFirstSim | src/ic.c:2930-2950 | a binary operator lowered left operand first computes the value and effects of the source |
| Lowering.RightFirstSim | src/ic.c:2930-2950 | and so does it right operand first |
| Lowering.ExpSim | src/ic.c:2737-3347 | the code of every expression ends behind itself with value and effects of the source, earlier temporaries intact |
| Lowering.IfSim | src/ic.c:1556-1595 | if without else |
| Lowering.IfElseSim | src/ic.c:1556-1595 | if with else |
| Lowering.WhileSim | src/ic.c:1597-1628 | while, with the test emitted twice |
| Lowering.DoSim | src/ic.c:1630-1662 | do, with a preceding label used again or a new one |
| Lowering.ForSim | src/ic.c:1664-1713 | for, with any of the three expressions missing |
| Lowering.ReturnSim | src/ic.c:1756-1769 | return sets the result and reaches the exit label |
| Lowering.LoopSim | src/ic.c:1617-1627 | rounds of a loop: break, continue, return and falling through reach their targets in the source's state |
| Lowering.StmtSim | src/ic.c:1422-1471 | every statement: a bounded source run ends at fall-through, break, continue or return target in the same state, an unfinished one keeps the quads running as long |
| Lowering.FreshExp | src/ic.c:309-331 | an expression's code emits each label once, from its own range |
| Lowering.FreshStmt | src/ic.c:309-331 | and so does a statement's |
| Lowering.UniqueFunction | src/ic.c:1032-1046 | no label occurs twice in a function |
| Lowering.FunctionSim | src/ic.c:1032-1046 | a function's quads against a bounded run of its body |
| Lowering.Preserved | src/ic.c:1032-1046 | if the source terminates, the quads reach their end in the same state |
| Lowering.Reflected | src/ic.c:1032-1046 | if the quads reach their end, the source terminates in the same state |
| LoweringEmit.TableFinds | src/ic.c:327-331 | the label table finds what a search of the code finds |
| LoweringEmit.Emitter.Expression | src/ic.c:2737-3347 | appends exactly the code of the expression and returns its operand; counters as specified |
| LoweringEmit.Emitter.Conditional | src/ic.c:2812-2838 | the same for ?: |
| LoweringEmit.Emitter.LogicValue | src/ic.c:2840-2903 | the same for && and or with a value |
| LoweringEmit.Emitter.Controlling | src/ic.c:1394-1400 | the same for controlling expressions |
| LoweringEmit.Emitter.Statement | src/ic.c:1422-1471 | appends exactly the code of the statement and leaves the target stacks as they were |
| LoweringEmit.Emitter.IfElseStatement | src/ic.c:1556-1595 | the same for if and else |
| LoweringEmit.Emitter.WhileStatement | src/ic.c:1597-1628 | the same for while |
| LoweringEmit.Emitter.DoStatement | src/ic.c:1630-1662 | the same for do, looking at the last instruction for a label |
| LoweringEmit.Emitter.ForStatement | src/ic.c:1664-1713 | the same for for |
| LoweringEmit.Emitter.Function | src/ic.c:1032-1046 | the code of the function, with a label table that leads where a search would |
| Cfg.InOneBlock | src/ic.c:1281-1288 | the blocks partition the code: an instruction lies in the block of its nearest leader and in no other |
| Cfg.StaysInBlock | src/ic.c:1281-1288 | inside a block control goes to the next instruction |
| Cfg.LeavesThroughExit | src/ic.c:1290-1351 | from a block's last instruction control goes to one of its exits |
| Cfg.ExitsAreLeaders | src/ic.c:1239-1278 | every exit begins a block |
| Cfg.ExitsAreTaken | src/ic.c:1290-1351 | every exit is taken in some state |
| Cfg.FallsIntoLabel | src/ic.c:1337-1350 | a block that does not end in a jump falls into a label |
| Cfg.LinkedAdd | src/ic.c:172-189 | adding an edge on both sides keeps the two lists inverse and free of repetitions |
| Cfg.Builder.FindLeaders | src/ic.c:1229-1279 | an instruction gets a node iff it is one of the first two, a target, or stands behind a jump |
| Cfg.Builder.FindLast | src/ic.c:1284-1288 | the block reaches up to the next leader |
| Cfg.Builder.LinkNode | src/ic.c:1290-1351 | adds exactly the edges to the nodes of the block's exits |
| Cfg.Builder.Build | src/ic.c:1225-1352 | out-edges are exactly the exits, in-edges their inverse, each once |
| Cfg.Enter | src/ic.c:1184-1190 | entering a node opens it |
| Cfg.Leave | src/ic.c:1191-1199 | numbering a node whose successors are entered keeps the order property |
| Cfg.Numberer.NumberSub | src/ic.c:1184-1199 | everything entered below a node is numbered when it returns, the nodes open before stay open |
| Cfg.Numberer.NumberCfg | src/ic.c:1201-1223 | PO is a permutation of the nodes in which each successor comes first or leads back, and RPO is its reverse |
| Cfg.PostOrder | src/ic.c:1184-1223 | for an edge u to v where v does not reach u, v comes before u |
| Cfg.NumberedGraph | src/ic.c:1352-1354 | the numbered graph meets what the liveness solver assumes |
| LoweredCfg.ShapedExp | src/ic.c:2737-3347 | expression code jumps only to its own labels, and behind each branch stands a label something jumps to |
| LoweredCfg.ShapedCond | src/ic.c:1394-1400 | condition code jumps to both its targets and its own labels |
| LoweredCfg.ShapedStmt | src/ic.c:1422-1471 | statement code jumps only to its own labels, its targets and the exit |
| LoweredCfg.LoweredIsStructured | src/ic.c:1225-1355 | every lowered function meets what the construction of blocks relies on |
| LoweredCfg.LoweredHasExit | src/ic.c:1041-1046 | nothing but the last jump leads to the last label |
| LoweredCfg.BuildFunction | src/ic.c:1019-1051 | from a body to its code, its blocks with exact edges, the exit block last, and a depth-first order |
| Simplify.AndMask | src/ic.c:670-681 | x & (2^n - 1) is the remainder by 2^n |
| Simplify.Po2Exact | src/util/util.h:19-19 | the bit test holds exactly for powers of two |
| Simplify.BitwiseMeans | src/ic.c:543-556 | AND, OR and XOR hold at each of the 64 bit positions what the operator says |
| Simplify.EffectUndone | src/ic.c:543-556 | difference, negation and complement, by what undoes them modulo 2^64; ! yields 1 exactly for zero |
| Simplify.ProductSteps | src/ic.c:543-556 | a product is repeated addition modulo 2^64 |
| Simplify.ShiftsMean | src/ic.c:543-556 | shifts have a value below 64 and are repeated doubling, or division by a power of two rounded down, signed or not |
| Simplify.DivisionMeans | src/ic.c:543-556 | quotient and remainder exist exactly if the divisor is not zero and the quotient fits; they make up the dividend, the remainder smaller than the divisor and with the sign of the dividend |
| Simplify.ILog2 | src/util/util.c:62-71 | the logarithm of the low 32 bits, -1 if they are zero |
| Simplify.LogOfPo2 | src/util/util.c:62-71 | for a power of two it is right below 2^32 and -1 from there on |
| Simplify.FoldRefines | src/ic.c:543-556 | folding two constants gives the operator's value, and fails only at a division without one |
| Simplify.LeftRefines | src/ic.c:558-756 | a constant on the left: the rewritten quad has the same value, unless it shifts by the logarithm of a wide power |
| Simplify.RightRefines | src/ic.c:558-756 | a constant on the right likewise, with unsigned division to shift and remainder to mask |
| Simplify.RewriteExact | src/ic.c:558-756 | the rewritten quad keeps the value modulo 2^64 in every state iff no power of two from 2^32 on became a shift; the compiler stops iff constants are divided without a value |
| Simplify.TurnExact | src/ic.c:530-541 | one turn of the loop, for its own quad and the entries it writes |
| Simplify.Turn | src/ic.c:530-541 | one turn of the loop, for all quads when no rewritten entry is shared |
| Simplify.PassExact | src/ic.c:530-756 | if no rewritten entry is shared, the pass stops iff some division of constants has no value, and otherwise each quad does in every state what it did, iff it is not a wide power |
| Simplify.Simplifier.Run | src/ic.c:530-756 | for all code the outcome is that of the pass quad by quad over the changing entries; if no rewritten entry is shared, each quad does in every state what it did, iff it is not a wide power |
| Simplify.SharedEntryLost | src/ic.c:618-621 | with a shared entry the target of another quad becomes a constant |
| LibLux.UCmp64 | src/lib/liblux.c:20-31 | compares the 64-bit values |
| LibLux.SCmp64 | src/lib/liblux.c:33-43 | compares the signed values |
| LibLux.Shl64 | src/lib/liblux.c:45-57 | a * 2^n modulo 2^64 for every n |
| LibLux.UShr64 | src/lib/liblux.c:59-72 | a / 2^n rounded down |
| LibLux.SShr64 | src/lib/liblux.c:74-87 | signed a / 2^n rounded down |
| LibLux.PartialProducts | src/lib/liblux.c:89-123 | the ten partial products that are kept add up to the product modulo 2^64 |
| LibLux.Mul64 | src/lib/liblux.c:89-123 | the product modulo 2^64 for all operands |
| LibLux.UnsignedExact | src/lib/liblux.c:131-143 | at every bit position quotient and remainder are those of the dividend's prefix, for every divisor |
| LibLux.UDivMod64 | src/lib/liblux.c:125-145 | quotient and remainder for all operands, a trap for divisor zero |
| LibLux.SignedExact | src/lib/liblux.c:177-189 | the signed loop does the same while the doubled remainder stays below 2^63 |
| LibLux.TruncationLaw | src/lib/liblux.c:157-196 | x is y times the truncated quotient plus a remainder smaller than y with the sign of x |
| LibLux.SignedOutcome | src/lib/liblux.c:157-196 | for which operands the signed loop's results are right: a condition on the operands, both ways |
| LibLux.SDivMod64 | src/lib/liblux.c:157-196 | truncating quotient and remainder exactly on the ordinary operands, a trap for divisor zero |
| Heap.Increasing | src/lib/stdlib.c:25-32 | the blocks lie in address order and do not overlap |
| Heap.LiveDisjoint | src/lib/stdlib.c:57-79 | live blocks with their headers are disjoint and inside the heap |
| Heap.UnitsConserved | src/lib/stdlib.c:39-134 | used and free units of all blocks make up the heap |
| Heap.NothingLiveNothingLost | src/lib/stdlib.c:81-100 | with everything freed the heap is one free block again |
| Heap.CarveTiles | src/lib/stdlib.c:71-78 | a header at the start of free units keeps the tiling |
| Heap.CarveLive | src/lib/stdlib.c:71-78 | and adds one block of the requested size, all others untouched |
| Heap.MergeTiles | src/lib/stdlib.c:97-99 | giving a block's units to the one before keeps the tiling |
| Heap.MergeLive | src/lib/stdlib.c:97-99 | and removes exactly that block |
| Heap.ExtendTiles | src/lib/stdlib.c:45-54 | more memory at the end keeps the tiling |
| Heap.RefitLive | src/lib/stdlib.c:113-119 | resizing in place keeps as much of the contents as fits |
| Heap.WriteLive | src/lib/stdlib.c:57-79 | a client's store changes its own block only, and no header |
| Heap.UnitsSuffice | src/lib/stdlib.c:61-64 | a block holds what was asked for, unless the request exceeds 2^32 - 12 bytes |
| Heap.UnitsBound | src/lib/stdlib.c:61-64 | no request comes to more than 357913942 units, and the ones from 2^32 - 15 to 2^32 - 12 bytes come to that |
| Heap.IncrementExact | src/lib/stdlib.c:49-53 | the break moves by the units counted, unless they make 2^31 bytes or more: then it moves backwards, for the largest number of units forwards by 8 |
| Heap.StepAround | src/lib/stdlib.c:66-68 | one step of a walk around the circle |
| Heap.Allocator.constructor | src/lib/stdlib.c:25-32 | the first header, tiling the initial heap, with nothing live |
| Heap.Allocator.Find | src/lib/stdlib.c:66-68 | the first block with enough free units around the circle from the last one used, or none has |
| Heap.Allocator.Last | src/lib/stdlib.c:46-47 | the block at the end of the heap |
| Heap.Allocator.Expand | src/lib/stdlib.c:39-55 | the last block grows by the larger of the request and the minimum, if the system agrees |
| Heap.Allocator.Malloc | src/lib/stdlib.c:57-79 | a new block behind the first one that fits, or behind the last once the heap has grown, the contents of all others kept; the search starts there next time; it fails iff the size is zero or no block fits and the system does not agree |
| Heap.Allocator.Locate | src/lib/stdlib.c:88-96 | the block and its predecessor, or no block begins there |
| Heap.Allocator.Release | src/lib/stdlib.c:81-100 | exactly that block is gone and the next search starts at the one before it; an unknown pointer changes nothing |
| Heap.Allocator.CopyPayload | src/lib/stdlib.c:124-127 | the copy keeps the old contents and touches no other block |
| Heap.Allocator.Realloc | src/lib/stdlib.c:102-134 | the block keeps as much of its contents as fits, in place if the units behind it suffice, and all other blocks theirs; it fails iff the size is zero, or a new block is needed, none fits and the system does not agree |
| Qsort.SegmentSettled | src/lib/stdlib.c:614-681 | work inside a pending segment settles every pair that does not share a remaining piece |
| Qsort.PartsSettle | src/lib/stdlib.c:635-652 | after partitioning only pairs inside one part are open |
| Qsort.PartsApart | src/lib/stdlib.c:652-674 | the parts that replace a segment overlap with no other pending one |
| Qsort.ShortSort | src/lib/stdlib.c:603-612 | rearranges the segment, sorted if the comparison is an order |
| Qsort.Partition | src/lib/stdlib.c:635-650 | rearranges the segment around an element that separates it, for an order |
| Qsort.StackSuffices | src/lib/stdlib.c:620-621 | when a segment is split there are at most 28 entries on the stack |
| Qsort.PartsHalved | src/lib/stdlib.c:652-674 | deferring the larger part keeps the segment at depth k within the k-th halving of the array |
| Qsort.BytesCompare | src/lib/stdlib.c:652-652 | the comparison of the parts in bytes compares their lengths |
| Qsort.SplitAndPush | src/lib/stdlib.c:634-674 | one split, with the stack index in range, leaving less to do |
| Qsort.QSort | src/lib/stdlib.c:614-681 | ends with a permutation for any comparison function, sorted for every total preorder |
| NumText.CutoffTest | src/lib/stdlib.c:328-332 | the cutoff test decides whether one more digit exceeds 64 bits |
| NumText.ScanDigits | src/lib/stdlib.c:316-334 | the digits up to the first that is none, their value or the fact that it is too large |
| NumText.Strtoxll | src/lib/stdlib.c:275-366 | for every string, base and signedness: the clamped value of the subject sequence, its end, and whether it was out of range |
| NumText.CharacterClasses | src/lib/stdlib.c:288-320 | what white space is, and the values of digits and letters |
| NumText.LoneZeroX | src/lib/stdlib.c:300-313 | 0x without a hexadecimal digit behind it is the number 0, ending behind the zero, in base 0 and 16 |
| NumText.DigitStringValue | src/lib/stdio.c:868-871 | the digits of n denote n |
| NumText.DigitCase | src/lib/stdio.c:868-871 | letters among the digits are of the case asked for |
| NumText.DigitStringShort | src/lib/stdio.c:857-857 | in base eight and above a number below 2^(3k) has at most k digits |
| NumText.CollectDigits | src/lib/stdio.c:866-871 | the digits backwards in the buffer, never more than 22 |
| NumText.Number | src/lib/stdio.c:855-882 | the digits with zeros up to the precision, within the two 32-byte buffers |
| NumText.DigitsAsAsked | src/lib/stdio.c:855-882 | the digits are those the standard asks for if the precision is at most 32 and it is not %#.0o of zero; otherwise they are too few |
| NumText.WrittenAsAsked | src/lib/stdio.c:1010-1180 | and with them the field, whatever the flags and the width |
| NumText.Convert | src/lib/stdio.c:1010-1180 | what is written is the field the standard asks for iff the width leaves room for sign or prefix, the precision is at most 32 and it is not %#.0o of zero; without room there are 2^32 characters more |
| NumText.PrefixAsks | src/lib/stdio.c:1010-1180 | exactly when which sign, blank, 0x or 0X stands in front |
| NumText.SpelledMeans | src/lib/stdlib.c:275-366 | what the parser makes of blanks, prefix, zeros, digits, blanks |
| NumText.RoundTrip | src/lib/stdlib.c:275-366 | every 64-bit value, signed or not, in base 8, 10 or 16, with any flags and width, parses back to itself without range error, up to the padding behind it |
| NumText.RoundTripBaseZero | src/lib/stdlib.c:300-313 | a text that says its base is read back in base 0 as well |
| NumText.AlternativeSaysBase | src/lib/stdio.c:1010-1180 | the alternative form of a number that is not zero says its base |
| NumText.NothingToParse | src/lib/stdio.c:863-864 | zero at precision zero has no digits to parse |
| Macro.MarkerEnds | src/pre.c:1166-1169 | up to a marker a list expands with the name hidden, behind it with the name visible |
| Macro.ReplaceKeepsMeaning | src/pre.c:1156-1174 | splicing in a replacement list and its marker keeps the meaning and takes work off the list |
| Macro.PlaceOfUse | src/pre.c:1083-1109 | `__LINE__` and `__FILE__` stand for the place of use, out of a replacement list for the place of the macro name |
| Macro.NoBuiltinLeft | src/pre.c:1083-1109 | no built-in name is left in the result; each of its tokens is at a place of the line and comes from the line, a replacement list or that place |
| Macro.AdvanceMacro | src/pre.c:1156-1174 | the same for tables and flags, with a marker for every disabled macro |
| Macro.AdvanceMarker | src/pre.c:1116-1120 | a marker enables its macro and is deleted |
| Macro.Preprocessor.ExpandSimpleMacro | src/pre.c:1156-1174 | the list after splicing, the name deleted, the macro disabled unless its list is empty |
| Macro.Preprocessor.PreprocessingToken | src/pre.c:1073-1124 | one token: the meaning of the line is kept and less work is left |
| Macro.Preprocessor.PpTokens | src/pre.c:1054-1059 | for every set of object-like macros the line ends as its recursive expansion, all macros enabled |
| IfExpr.ValueIsLazy | src/pre.c:1437-1487 | where nothing traps, evaluating all operands gives the value of the language |
| IfExpr.ValueIfNoneTraps | src/pre.c:1437-1487 | all operands can be evaluated iff no operation anywhere traps |
| IfExpr.DeliversLazyValue | src/pre.c:1437-1487 | the evaluator delivers what the language does iff no operation anywhere traps or the language's evaluation traps as well |
| IfExpr.UnneededOperandTraps | src/pre.c:1457-1471 | 1 or 1/0 traps although its value is 1 |
| IfExpr.Parses | src/pre.c:1432-1716 | an expression written for a level is evaluated by that level to its value, leaving the tokens behind it to the level's loop |
| IfExpr.Evaluates | src/pre.c:1432-1716 | written with only the needed parentheses an expression evaluates to its value and exactly its tokens are consumed; it traps iff one of its operations does |
| IfExpr.Precedence | src/pre.c:1457-1642 | a p b q c is (a p b) q c if p stands no later than q in the list of the ten operator classes of the standard, else a p (b q c), for all numbers and operators |
| IfExpr.UnaryTightest | src/pre.c:1644-1680 | a unary operator binds tighter than every binary one |
| IfExpr.ConditionalLoosest | src/pre.c:1437-1455 | ?: binds looser than every binary operator and groups from the right |
| IfExpr.ApplyMeans | src/pre.c:1457-1576 | logical operators and comparisons yield 1 or 0, according to the order of the numbers |
| IfExpr.Accepted | src/pre.c:1432-1716 | whatever the evaluator accepts is an expression as the grammar writes it, with its value |
| IfExpr.Evaluator.CondExpr | src/pre.c:1437-1455 | value, error or trap as specified for the tokens, and the tokens left |
| IfExpr.Evaluator.BinaryExpr | src/pre.c:1457-1642 | the same for the ten levels of binary operators |
| IfExpr.Evaluator.UnaExpr | src/pre.c:1644-1680 | the same for unary operators and `defined` |
| IfExpr.Evaluator.PriExpr | src/pre.c:1682-1716 | the same for parentheses, names and numbers |
| LitPool.PatchReads | src/luxarm/luxasarm.c:555-563 | the patched load reads the literal's address, ahead or behind |
| LitPool.DumpStep | src/luxarm/luxasarm.c:553-571 | one turn of the dump serves one load and disturbs none |
| LitPool.DistanceBound | src/luxarm/luxasarm.c:556-556 | with n words since the last pool a literal is between 4 bytes behind and 4n - 8 ahead |
| LitPool.Assembler.LdrLiteral | src/luxarm/luxasarm.c:1760-1786 | the pool gets the literal and the load waits for its address |
| LitPool.Assembler.Dump | src/luxarm/luxasarm.c:534-575 | fails iff a literal is out of reach; else each pending load reads its own literal, no other word has changed, the literals follow in order and the pool is empty |
| LitPool.DescribedDump | src/luxarm/luxasarm.c:534-575 | a dump turns each waiting load into one that reads the word placed for it, and changes no other word |
| LitPool.AssembleFunction | src/arm_cgen/arm_cgen.c:91-117 | under the generator's rule, with up to 500 uncounted lines, no dump fails; the code is laid out as the counting of the lines demands, with the lines' words at strictly increasing positions, a branch in front of each pool that a count placed, and every load reads the literal placed for it |
| LitPool.ControlFlows | src/arm_cgen/arm_cgen.c:94-102 | in the assembled code control that falls out of a line gets to the next line with a word, around all pools between them |
| LitPool.EntersFirst | src/arm_cgen/arm_cgen.c:104-117 | control that enters the function gets to its first line with a word |
| LitPool.BranchesLead | src/luxarm/luxasarm.c:471-486 | every branch word of the code, decoded as the processor does, leads behind the pool that follows it |
| LitPool.Neighbours | src/arm_cgen/arm_cgen.c:104-117 | where the count is not full nothing is placed between the words of two lines that follow each other |
| LitPool.LiteralsNotShared | src/luxarm/luxasarm.c:1760-1786 | no two loads read the same word |
| Plt.HighLow | src/luxld/mips.c:101-106 | upper half with carry and signed lower half make the address |
| Plt.DecodeX86 | src/luxld/x86.c:76-80 | the stub decodes to its slot, its relocation and PLT0 |
| Plt.DecodeX64 | src/luxld/x64.c:64-68 | the same, the slot if it is within 2^31 |
| Plt.FarSlotMissed | src/luxld/x64.c:66-66 | further away the slot is missed |
| Plt.DecodeArm | src/luxld/arm.c:84-86 | the stub loads its slot's address |
| Plt.DecodeMips | src/luxld/mips.c:98-106 | the stub computes its slot's address, twice |
| Plt.Linker.NewGotPltEntry | src/luxld/x86.c:30-46 | slot and relocation are added together, the relocation for that slot |
| Plt.Linker.GetPltEntry | src/luxld/x86.c:53-91 | a name seen before keeps its stub; a new one gets stub, slot and relocation number k, all in step |
| Plt.Plt0Resolves | src/luxld/mips.c:84-97 | entered from any stub, PLT0 jumps through the slot of the dynamic linker, pushes its module's slot on x86, and on MIPS computes the stub's relocation number |
| Plt.UnboundReachesPlt0 | src/luxld/x86.c:75-80 | until it is bound, a function's slot leads on x86 and x64 to the code of its own stub that pushes relocation k and jumps to PLT0, on ARM and MIPS to PLT0 itself |
| Plt.RelocationsBind | src/luxld/x86.c:30-46 | relocation k is for function k's slot and, where the name is in the dynamic symbol table, for its symbol |
| Plt.SlotsApart | src/luxld/x64.c:23-36 | slots do not overlap, and none is one that PLT0 uses |
| Plt.StubsDistinct | src/luxld/mips.c:71-117 | distinct functions have distinct stubs and slots, on every target |

## Left out

- Input and output, ELF emission, system calls, the driver, diagnostics, parsing and typing of C: not modelled.
- ArmCgen.Generator.CompileBlock: 64-bit pairs, narrow types, struct copies, calls, shifts, division through library calls, string literals and the fusion of comparisons with branches are not translated; branches and so the composition of blocks over the flow graph are not modelled; a clobbered store must not hit the home of a variable that no pointer points to; memory is read and written in words; that homes of names do not overlap is an assumption on the frame layout.
- JumpTable.Switch: case values are assumed to fit an int; 64-bit switches use a chain of comparisons that is not modelled.
- Lowering.StmtSim: goto, switch, calls, pointers and narrow types are left out; operators are a parameter; the quads of this module carry labels and operands directly instead of indices into the address table.
- Lowering.ExpSim: requires that no operand of an operator assigns what the other one uses; a few expressions the language defines are shut out with the undefined ones, those whose conflicting assignment is never evaluated, as in x + (y && (x = 1)) with y zero.
- LoweringEmit.Emitter.Statement: the target stacks have no limit of 128 entries.
- Cfg.Builder.Build: no switches; node numbers count from the function's first node; the null node is -1.
- Simplify.Simplifier.Run: comparisons and conversions are left as they are; values are 64 bits wide.
- Heap.Allocator.Realloc: memory is counted in units of twelve bytes; of the last unit it copies, which lies behind the old payload, the new contents are unspecified; what `sbrk` grants is a parameter.
- Qsort.QSort: elements are exchanged whole where `_swap` exchanges bytes.
- NumText.Convert: one conversion with its flags, width and precision; the parsing of the format string and the length modifiers are left out.
- Macro.Preprocessor.PpTokens: function-like macros and directives are left out.
- IfExpr.Evaluator.CondExpr: bitwise, shift and arithmetic operators, and unary - and ~, are parameters; the flags that mark tokens as deleted are left out.
- LitPool.Assembler.LdrLiteral: the case in which an immediate operand replaces the load is left out.
- LitPool.AssembleFunction: each line is one word or less; a pool that falls into the lines of a long jump table, which are counted although they go to another section, is placed behind the code here.
- Plt.Linker.GetPltEntry: section buffers are large enough and addresses do not wrap around.
- The string table, scanf, signals, dominators, reaching definitions and MIPS, x86 and x86-64 code generation: not modelled.
