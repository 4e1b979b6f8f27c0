# Verified models of the Lua and FatFs parts of scmRTOS

These Dafny modules model the algorithmic cores of two libraries the repository
carries, Lua 5.2.1 (`modules/lua`) and FatFs R0.07e (`modules/fatfs`), and prove
what they promise. `dafny verify dfyconfig.toml` checks everything.

Code that works in place is modelled in place: arrays, fields and index-valued
pointers, with ghost maps or sequences as their meaning. Each method is proved
against what it is to achieve, stated apart from how it does so.

**Incremental garbage collector** (`LuaGcHeap`, `LuaGcLinks`, `LuaUvRing`,
`LuaGcMark`, `LuaGcSweep`, `LuaGcWrite`, `LuaGcResize`, `LuaGcCollector`,
`LuaGcMutator`). The heap with its colours, gray lists, `allgc`, string chains and
the ring of open upvalues; the collector's single steps; the program with its
barriers, and the table of strings that is doubled and halved on the way.
`LuaGcMutator.Run`: in every interleaving nothing reachable is freed, and while
marking no black object refers to a white one; `LuaGcMutator.Step` says what each
step does, closing of upvalues and resizing included, and that it does no more.
The `...Effect` lemmas spell that out slot by slot.
`Collector.FullGC`: the survivors are exactly the reachable and the fixed objects.
`LuaGcEphemeron` has the tables with weak keys: their convergence gives the least
closed marking.

**Code generator** (`LuaVm`, `LuaPatch`, `LuaCodeSpec`, `LuaCodeFlow`,
`LuaCodeHolds`, `LuaCodeGen`, `LuaStatements`). Jump lists threaded through
unfinished jumps, TESTSET and TEST rewriting, jump inversion, against an
interpreter of the target instructions. `LuaStatements.CompileProgram`: finished
code of nested `if`, `while` and `repeat` leaves in the locals exactly what the source
does, and ends exactly if the source does. Runs have a number of turns that loops may
make; the theorem holds for every number, and `LuaStatements.BlockMore` shows that
turns only bound a run.

**FatFs** (`FatVolume`, `FatWindow`, `FatChains`, `FatAlloc`, `FatData`, `FatFile`,
`FatRun`, `FatLfn`). The one write-back window, entries of 12, 16 and 28 bits,
cluster chains, files as byte arrays: each layer refines a simple one.
`FatFile.Fil.ContentByte` says where on the drive each byte of a file is.
`FatRun.RunFile`: any sequence of operations on a file is one of a byte array with
a position, which falls short exactly when it cannot have the clusters it needs,
whatever count of free clusters the volume records. `FatLfn` stores long names in
directory entries and gets them back.

**Tables** (`LuaTableNodes`, `LuaTableSizes`, `LuaTable`, `LuaTableNext`,
`LuaTableLength`). An array part and a chained scatter table with Brent's variation
agree with a map for any hash function; a rehash never triggers another; a
traversal sees every entry once, also while it assigns to the entries it sees.

**Pattern matching** (`LuaPattern`, `LuaMatch`, `LuaPatternUses`). The backtracking
matcher gives the match that comes first in the documented order of preference among
all ways to follow the pattern, and undoes its captures when there is none.
`LuaPatternUses` says what the items of the manual stand for and what simple patterns find.

**Smaller cores.** `LuaSort`: quicksort. `LuaStrings`: the table of short strings
with its rehash in place. `LuaChunk`, `LuaChunkTrip`, `LuaDump`, `LuaUndump`:
precompiled chunks through a refusing writer and a reader of pieces; `LuaChunkFormat`
has their bytes place by place, `LuaChunkCut` refuses one that ends early.
`Common` is what several models share.

Where the code does not do what it is for, the exact condition is proved:

- `f_getfree` gives a recorded count of at most the number of clusters as it is, so
  it is right exactly if that count is; otherwise it is right exactly if the type is
  FAT12, where an entry 1 is an error, or neither reserved entry is zero
  (`FatAlloc.GetFree`). It is wrong with a stale record (`FatAlloc.CountStale`), and
  with a table whose first sector is blank (`FatAlloc.CountBlank`).
- Names of `_MAX_LFN` - 1 or `_MAX_LFN` units can be created but are not read back
  unless the length is a multiple of 13; `cmp_lfn` has a similar limit
  (`FatLfn.RoundTrip`, `FatLfn.FindName`, `FatLfn.LongNames`).
- The place in the buffer for an entry of a long name is outside it exactly for
  order 0 (`FatLfn.PickLfn`, `FatLfn.CmpLfn`), which an entry that starts with 0x40
  has (`FatLfn.ReadDamaged`).
- A comparison is found invalid only if it takes some two elements both ways; one that
  takes all so, as `<=` does equal elements, exactly when there are more than three
  (`LuaSort.Sort`).
- Loading a chunk writes behind the array of upvalues exactly if it reads a name for
  which there is no upvalue (`LuaUndump.LoadState.LoadNames`).

## Model

| member | source | states |
|---|---|---|
| LuaPatch.StepExtended | modules/lua/lvm.c:646-709 | One turn of the interpreter on unfinished code stays in the code; on any extended and patched version of the code the same turn is made, unless it leaves through a pending jump that has since been given a target. |
| LuaPatch.RunExtended | modules/lua/lcode.c:59-209 | Running code that was patched and extended later is running the original code and carrying on from the way it was left: the simulation every code-emitting step rests on. |
| LuaCodeSpec.ListJoined | modules/lua/lcode.c:198-209 | Linking the last jump of one list to the head of another, disjoint list makes the two one list. |
| LuaCodeFlow.PatchFlow | modules/lua/lcode.c:150-160 | After patching, flow that left through a listed jump goes on at its target with its value delivered to the register; all other flow is as before. |
| LuaCodeFlow.PatchedFlow | modules/lua/lcode.c:150-160 | The same for a run, to targets further on or further back: going back takes a turn. |
| LuaCodeFlow.BackFlow | modules/lua/lcode.c:169-176 | After patching a list to the label of a loop, a run that comes to one of its jumps begins again there, with a turn less if that is going back, or ends for want of turns; every other run is as before. |
| LuaCodeFlow.DischargeFlow | modules/lua/lcode.c:163-166 | Sending the jumps in jpc to the current end changes no flow. |
| LuaCodeFlow.AppendCondFlow | modules/lua/lcode.c:74-77 | A test and its new pending jump split the flow by the test. |
| LuaCodeFlow.DevalueFlow | modules/lua/lcode.c:144-147 | Taking values off a list changes only the flow through that list: the exits stay, without a stored value. |
| LuaCodeFlow.RelinkFlow | modules/lua/lcode.c:198-209 | Rewiring list links of pending jumps changes no flow at all. |
| LuaCodeFlow.InvertFlow | modules/lua/lcode.c:599-604 | Inverting a comparison exchanges falling through and taking its jump, and nothing else. |
| LuaCodeFlow.NilFlow | modules/lua/lcode.c:37-56 | A LOADNIL widened to join a new register puts nil there and keeps what the older one did. |
| LuaCodeFlow.LoadsFlow | modules/lua/lcode.c:469-490 | The two boolean loads at the end of exp2reg are skipped by a value already in place and reached by no other flow. |
| LuaCodeFlow.HoldFlow | modules/lua/lcode.c:59-66 | After luaK_jump every run that would fall out leaves through the new jump, with its registers; a run to a jump that waited in jpc, and any other, ends as before. |
| LuaCodeFlow.HereFlow | modules/lua/lcode.c:192-195 | After luaK_patchtohere the flow through the list falls out at the end; other pending jumps are untouched. |
| LuaCodeHolds.EvalAgrees | modules/lua/lparser.c:1034-1061 | The value of an expression depends on the registers below its base only. |
| LuaCodeHolds.NotHolds | modules/lua/lcode.c:669-701 | Exchanging the exit lists and taking their values away turns a description of x, with the value at the end negated, into one of `not x`. |
| LuaCodeHolds.LogicHolds | modules/lua/lcode.c:814-837 | Joining the open exits of the first operand with those of the second gives a description of `a and b` or `a or b`. |
| LuaCodeHolds.CompareHolds | modules/lua/lcode.c:747-760 | The comparison instruction and its jump describe the comparison of the two operands, with `>` and `>=` as exchanged `<` and `<=`; what that is on numbers is in EvalNumbers and ComparisonStored. |
| LuaCodeHolds.FinishHolds | modules/lua/lcode.c:469-490 | When every exit brings its value, or the boolean of its list, to the register, the register holds the value of the expression. |
| LuaCodeHolds.PatchBothFlow | modules/lua/lcode.c:483-485 | Patching the false and then the true exits sends each to the end with its own value, or to the load of its boolean. |
| LuaCodeHolds.StageTest | modules/lua/lcode.c:607-619 | A test on the value falls through exactly for the wanted truth value and leaves through its jump otherwise. |
| LuaCodeHolds.CondGathered | modules/lua/lcode.c:622-666 | Gathering the exits of one truth value and letting the others come here gives a condition that falls through exactly when it should. |
| LuaCodeHolds.LogicDone | modules/lua/lcode.c:814-837 | The same with all lists threaded through the code and disjoint from the jumps of others. |
| LuaCodeGen.FuncState.Concat | modules/lua/lcode.c:198-209 | Joins two disjoint acyclic jump lists into one, rewiring the last jump of the first and nothing else. |
| LuaCodeGen.FuncState.PatchTestReg | modules/lua/lcode.c:131-141 | A TESTSET in front of the jump gets the register, or becomes a TEST when it needs none; any other instruction is left alone, and the result says which. |
| LuaCodeGen.FuncState.PatchListAux | modules/lua/lcode.c:150-160 | Exactly the jumps of the list get their targets, those with a value and the others; every other instruction is unchanged. |
| LuaCodeGen.FuncState.RemoveValues | modules/lua/lcode.c:144-147 | Exactly the TESTSETs of the list become TESTs. |
| LuaCodeGen.FuncState.NeedValue | modules/lua/lcode.c:122-128 | True exactly if some jump of the list has no TESTSET in front of it. |
| LuaCodeGen.FuncState.DischargeJpc | modules/lua/lcode.c:163-166 | The jumps in jpc get the current end as target and jpc is empty. |
| LuaCodeGen.FuncState.Code | modules/lua/lcode.c:212-224 | jpc is discharged, then the instruction is appended. |
| LuaCodeGen.FuncState.JumpOp | modules/lua/lcode.c:59-66 | A pending jump is appended; the jumps that came to its place follow it in its list. |
| LuaCodeGen.FuncState.CondJump | modules/lua/lcode.c:74-77 | A test and a pending jump are appended. |
| LuaCodeGen.FuncState.PatchToHere | modules/lua/lcode.c:192-195 | The list joins jpc, and lasttarget is the end. |
| LuaCodeGen.FuncState.PatchList | modules/lua/lcode.c:169-176 | To the end of the code the list joins jpc; to a place before it exactly the jumps of the list get that target, without values. |
| LuaCodeGen.FuncState.ReserveRegs | modules/lua/lcode.c:271-274 | The registers are reserved, and the maximal stack size keeps up with them. |
| LuaCodeGen.FuncState.AddK | modules/lua/lcode.c:291-316 | The constant is found or added; constants keep their places. |
| LuaCodeGen.FuncState.LoadNilTo | modules/lua/lcode.c:37-56 | Afterwards the register is nil on every flow, also when the instruction was joined to an earlier LOADNIL; no jump target is passed over. |
| LuaCodeGen.FuncState.Discharge2Reg | modules/lua/lcode.c:422-458 | The value moves to the register and the description stays true; a comparison is left as it is. |
| LuaCodeGen.FuncState.Exp2Reg | modules/lua/lcode.c:469-490 | Whatever jumps the expression has, on every flow its value ends in the register, registers below the base are unchanged and no exit is left. |
| LuaCodeGen.FuncState.Exp2NextReg | modules/lua/lcode.c:493-498 | The value is in the next free register. |
| LuaCodeGen.FuncState.Exp2AnyReg | modules/lua/lcode.c:501-512 | The value is in some register; a local stays where it is. |
| LuaCodeGen.FuncState.Exp2RK | modules/lua/lcode.c:529-556 | The value is a constant or register operand. |
| LuaCodeGen.FuncState.InvertJump | modules/lua/lcode.c:599-604 | The comparison before the jump accepts the opposite result. |
| LuaCodeGen.FuncState.JumpOnCond | modules/lua/lcode.c:607-619 | Control leaves through the new jump exactly if the value has the given truth value; a NOT just emitted is undone and its operand tested. |
| LuaCodeGen.FuncState.GoIfTrue | modules/lua/lcode.c:622-643 | Control falls through exactly if the value is true; otherwise it leaves through list e.f. |
| LuaCodeGen.FuncState.GoIfFalse | modules/lua/lcode.c:646-666 | Control falls through exactly if the value is false; otherwise it leaves through list e.t. |
| LuaCodeGen.FuncState.CodeNot | modules/lua/lcode.c:669-701 | The description becomes one of the negation, with exits exchanged and without values. |
| LuaCodeGen.FuncState.JoinLogic | modules/lua/lcode.c:814-837 | The open exits of the first operand join those of the second. |
| LuaCodeGen.FuncState.PosfixLogic | modules/lua/lcode.c:814-837 | With both operands described, the result describes `a and b` or `a or b`. |
| LuaCodeGen.FuncState.CodeComp | modules/lua/lcode.c:747-760 | With both operands described, the result describes the comparison, as a jump; temporaries are freed. On numbers it is that of the operator: ComparisonStored. |
| LuaCodeGen.FuncState.Compile | modules/lua/lcode.c:763-860 | For every expression of locals, constants, not, and, or and comparisons the emitted code describes its value, and the registers in use are as before. |
| LuaCodeGen.FuncState.ExprToNextReg | modules/lua/lparser.c:1034-1061 | Run from any registers, the emitted code leaves exactly the value of the expression in the next free register and changes no live local. |
| LuaCodeGen.FuncState.StoreLocal | modules/lua/lcode.c:559-583 | The local gets exactly the value of the expression; the other live locals keep theirs. |
| LuaCodeGen.FuncState.Condition | modules/lua/lparser.c:1166-1173 | Control falls through exactly if the value of the expression is true, and leaves through the returned list otherwise, with the live registers unchanged. |
| LuaCodeGen.FuncState.Relocate | modules/lua/lcode.c:442-446 | Filling in the register of the last instruction leaves the value there. |
| LuaCodeGen.FuncState.CodeLabel | modules/lua/lcode.c:416-419 | A load of a boolean that may skip the next instruction is appended. |
| LuaCodeGen.FuncState.EmitLoads | modules/lua/lcode.c:477-482 | The two loads are appended; a value already in place jumps over them. |
| LuaCodeGen.FuncState.PatchExits | modules/lua/lcode.c:483-485 | The exits of both lists get the end, or their load, as target. |
| LuaCodeGen.FuncState.GatherTrue | modules/lua/lcode.c:471-472 | The jump of a comparison joins its list of true exits. |
| LuaCodeGen.FuncState.FinishPlain | modules/lua/lcode.c:473-489 | When every exit brings a value, the value of the expression is in the register. |
| LuaCodeGen.FuncState.FinishLoads | modules/lua/lcode.c:473-489 | When some exit brings none, the value of the expression is in the register all the same. |
| LuaCodeGen.FuncState.TestOperand | modules/lua/lcode.c:608-613 | A NOT just emitted is taken back and its operand tested for the opposite truth value. |
| LuaCodeGen.FuncState.TestSetValue | modules/lua/lcode.c:616-618 | The value in a register is tested, by an instruction that may also store it. |
| LuaCodeGen.FuncState.Discharge2AnyReg | modules/lua/lcode.c:461-466 | The value is in some register, with the exits as they were. |
| LuaCodeGen.FuncState.GatherExits | modules/lua/lcode.c:640-642 | The new jump joins the exits of the other truth value; those of the same one come here. |
| LuaCodeGen.FuncState.TakeCompare | modules/lua/lcode.c:626-630 | A comparison is its own test; for falling through when true it is inverted. |
| LuaCodeGen.FuncState.NegateValue | modules/lua/lcode.c:669-697 | The value at the end is negated, by constant, inverted comparison or NOT; the exits still stand for the operand. |
| LuaCodeGen.FuncState.ComparisonTest | modules/lua/lcode.c:747-760 | The instruction, operator by operator: A is 1 but for `~=`, the operands keep their order but for `>` and `>=`, which become `<` and `<=`. |
| LuaCodeGen.FuncState.EmitCompare | modules/lua/lcode.c:757-759 | The test and its jump stand for the comparison. |
| LuaCodeGen.FuncState.Simple | modules/lua/lparser.c:934-981 | A constant or local is described without code. |
| LuaCodeGen.FuncState.CompileLogic | modules/lua/lparser.c:1034-1061 | infix, second operand and posfix of `and` or `or` describe the whole. |
| LuaCodeGen.FuncState.CompileRel | modules/lua/lparser.c:1034-1061 | infix, second operand and posfix of a comparison describe the whole. |
| LuaCodeGen.FuncState.ComparisonStored | modules/lua/lcode.c:747-760 | The code of an assignment of a comparison of two locals that hold numbers leaves just that boolean in the register, as many turns, and all other registers in use as they were. |
| LuaStatements.TestThenBlock | modules/lua/lparser.c:1371-1403 | The block is executed if the condition is true, or never ends if it does not; otherwise nothing changes and control leaves through the list. |
| LuaStatements.JumpAway | modules/lua/lcode.c:59-66 | All that would fall out leaves through the new jump and those it keeps on hold, in one list; other lists stay. |
| LuaStatements.Escape | modules/lua/lparser.c:1371-1403 | A finished block leaves through the escape list, which is extended. |
| LuaStatements.RestOfArms | modules/lua/lparser.c:1392-1417 | Behind a block that is not the last: it escapes, and a false condition goes on at the remaining arms. |
| LuaStatements.CompileArms | modules/lua/lparser.c:1406-1417 | The arms of an if statement, else included: exactly the first arm whose condition is true is executed. |
| LuaStatements.IfStatement | modules/lua/lparser.c:1406-1417 | Finished blocks come to the end of the statement. |
| LuaStatements.NilAsFalseSame | modules/lua/lparser.c:1166-1173 | A condition that ends in the constant nil is as true as with false in its place, which is what is tested. |
| LuaStatements.WhileAt | modules/lua/lparser.c:1230-1246 | From any place, and for any number of turns: the code of a while loop goes around as often as the loop does, and leaves through the exits of its condition with the locals the loop leaves, or never ends if the loop does not. |
| LuaStatements.WhileEffect | modules/lua/lparser.c:1230-1246 | With these exits brought to its end, the code has the effect of the loop. |
| LuaStatements.WhileStatement | modules/lua/lparser.c:1230-1246 | The label, condition, block, jump back and exits of a while loop change the locals as the loop does, in as many turns. |
| LuaStatements.RepeatAt | modules/lua/lparser.c:1249-1266 | From any place, and for any number of turns: the code of a repeat loop goes back exactly when its condition is false, and falls out with the locals the loop leaves. |
| LuaStatements.RepeatEffect | modules/lua/lparser.c:1249-1266 | So the code has the effect of the loop, and keeps no exit from before. |
| LuaStatements.RepeatStatement | modules/lua/lparser.c:1249-1266 | The label, block, condition and exits sent back of a repeat loop change the locals as the loop does, in as many turns, also when nothing is emitted for it. |
| LuaStatements.Statement | modules/lua/lparser.c:1420-1490 | The code of a statement changes the locals as the statement does. |
| LuaStatements.Block | modules/lua/lparser.c:601-610 | The code of a block changes the locals as executing its statements in turn does. |
| LuaStatements.OldHeld | modules/lua/lcode.c:59-66 | A jump from before that is on hold behind a new one is taken right where it was before. |
| LuaStatements.BlockMore | modules/lua/lparser.c:601-610 | What ends within some turns ends the same way with more, and leaves those over: turns only bound a run. |
| LuaStatements.StmtMore | modules/lua/lparser.c:1230-1266 | The same for a statement. |
| LuaStatements.EndsAlike | modules/lua/lparser.c:601-610 | The code comes to its end with turns enough exactly if the source does. |
| LuaStatements.CompileProgram | modules/lua/lparser.c:601-610 | Whole programs of local assignments and nested if statements, while and repeat loops: from any registers and for any number of turns the finished code, run by the machine, ends at its end with exactly the locals the source leaves and as many turns left, or uses its turns up exactly if the source does; so the code terminates exactly if the source does. |
| LuaStatements.BlockJoined | modules/lua/lparser.c:601-610 | Two blocks one after the other are the first and then, if it ends, the second. |
| LuaStatements.StmtRuns | modules/lua/lparser.c:1133-1157 | An assignment changes one local to the value; of an if statement the first branch with a condition neither nil nor false is taken; a while loop does nothing if its condition is nil or false. |
| LuaStatements.LoopUnrolls | modules/lua/lparser.c:1230-1246 | While its condition holds a loop is its body followed by the loop, with one turn less to go. |
| LuaStatements.LoopEnds | modules/lua/lparser.c:1230-1275 | When a while loop ends its condition is nil or false, and when a repeat loop ends it is neither. |
| LuaStatements.ComparisonProgram | modules/lua/lparser.c:1034-1061 | The compiled program of one comparison of two locals that hold numbers ends with just that boolean in the local assigned to and the others unchanged. |
| LuaStatements.LoopProgram | modules/lua/lparser.c:1230-1246 | The compiled loop `while p < q` does nothing if p is no less than q, and if it ends with numbers in p and q then p is no less than q. |
| LuaGcHeap.ReachableStays | modules/lua/lgc.h:14-25 | A closed set with the roots in it holds everything reachable. |
| LuaGcHeap.SameLiveReach | modules/lua/lgc.c:721-754 | If the live part of the heap stays the same, what is reachable stays the same. |
| LuaGcMark.Shade | modules/lua/lgc.c:252-304 | Marking a white object keeps the tri-colour invariant. |
| LuaGcMark.PopGray | modules/lua/lgc.c:523-526 | The first gray object leaves its list and turns black while it is traversed, without breaking the invariant for others. |
| LuaGcMark.Traversed | modules/lua/lgc.c:425-516 | An object whose references are marked is done. |
| LuaGcMark.ClearCache | modules/lua/lgc.c:466-485 | A prototype lets go of a cached closure that is not marked. |
| LuaGcMark.SaveAgain | modules/lua/lgc.c:584-593 | The list grayagain may be set aside and traversed as a list of its own. |
| LuaGcMark.MarkedClosed | modules/lua/lgc.c:986-1024 | With no gray object left, the marked objects are closed: after the flip of whites all that survives refers only to survivors, the roots are among them, and beside fixed strings nothing is that was not marked. |
| LuaGcWrite.WriteOk | modules/lua/lgc.h:114-127 | A write needs no barrier if the object is not black or the value not white. |
| LuaGcWrite.BackOk | modules/lua/lgc.c:164-170 | In every phase the back barrier restores the invariant after a write to a black object. |
| LuaGcWrite.SweepBarrierOk | modules/lua/lgc.c:144-155 | While sweeping, the forward barrier makes the object white instead and keeps all that sweeping relies on. |
| LuaGcWrite.ForwardOk | modules/lua/lgc.c:144-155 | While marking, the forward barrier marks the value and restores the invariant. |
| LuaGcWrite.AllocOk | modules/lua/lgc.c:217-233 | A new object, of the current white, in front of allgc keeps the invariant of every phase. |
| LuaGcWrite.AllocStringOk | modules/lua/lstring.c:116-127 | The same for a new short string in its chain. |
| LuaGcWrite.AllocOpenOk | modules/lua/lfunc.c:59-71 | The same for a new open upvalue in the list of its thread. |
| LuaGcWrite.ReviveOk | modules/lua/lstring.c:144-145 | A dead string or upvalue that is used again may turn to the current white: all it refers to is alive. |
| LuaGcWrite.CacheOk | modules/lua/lgc.c:181-192 | A prototype may remember a closure if it is not black or the closure is marked. |
| LuaGcSweep.Freed | modules/lua/lgc.c:665-689 | Freeing a dead object changes nothing for the live ones. |
| LuaGcSweep.Whitened | modules/lua/lgc.c:721-754 | Nor does turning a live object white. |
| LuaGcSweep.UpvalCloses | modules/lua/lfunc.c:89-107 | Closing the topmost open upvalue keeps all lists consistent and every live object as it was. |
| LuaGcSweep.SweptTakenOut | modules/lua/lgc.c:721-754 | Taking a dead object out of allgc leaves the swept part swept. |
| LuaGcSweep.AllSwept | modules/lua/lgc.c:1058-1088 | When all lists have been swept every object is of the current white. |
| LuaGcSweep.Survivors | modules/lua/lgc.c:1172-1201 | At the end of an exact cycle the objects left are the reachable and the fixed ones. |
| LuaGcSweep.KeptClosing | modules/lua/lfunc.c:93-105 | One upvalue closed, and then coloured: its value moved into it, no other object changed, and what is alive keeps its contents, while marking and while sweeping. |
| LuaGcSweep.OneMoreClosed | modules/lua/lfunc.c:89-107 | Round by round exactly the upvalues from the top down are closed. |
| LuaGcCollector.Collector.ReallyMark | modules/lua/lgc.c:252-304 | The object is marked, its chain of metatables included, nothing turns lighter, and the invariant holds. |
| LuaGcCollector.Collector.PropagateMark | modules/lua/lgc.c:523-565 | One gray object is traversed; fewer objects are white, or fewer gray. |
| LuaGcCollector.Collector.PropagateAll | modules/lua/lgc.c:568-570 | Terminates with no gray object left and the invariant kept. |
| LuaGcCollector.Collector.MarkRoots | modules/lua/lgc.c:346-353 | All roots are marked. |
| LuaGcCollector.Collector.RemarkUpvals | modules/lua/lgc.c:333-339 | Going around the ring of open upvalues, the values of all marked ones are marked. |
| LuaGcCollector.Collector.RetraverseGrays | modules/lua/lgc.c:584-593 | With nothing gray the objects in grayagain are traversed once more, as a list of its own; nothing is left gray. |
| LuaGcCollector.Collector.AtomicPhase | modules/lua/lgc.c:986-1024 | Afterwards what the program can use is alive under the other white and refers only to what is alive; no contents changed. |
| LuaGcCollector.Collector.CheckUpvalColor | modules/lua/lgc.c:199-213 | A gray upvalue that was just closed turns black with its value marked, or white while sweeping. |
| LuaGcCollector.Collector.CloseUpvals | modules/lua/lfunc.c:89-107 | Exactly the open upvalues of the thread at the level or above are closed: dead ones are freed, the others are in allgc with the value of their slot; those below stay open, and no other object changes; all that is alive keeps its contents. |
| LuaGcCollector.Collector.SweepThread | modules/lua/lgc.c:700-707 | The open upvalues of a thread are swept. |
| LuaGcCollector.Collector.SweepBucket | modules/lua/lgc.c:721-754 | One chain of strings is swept: dead strings are freed, the others white. |
| LuaGcCollector.Collector.FreeObj | modules/lua/lgc.c:665-689 | The dead object is gone, the upvalues of a dead thread are closed, live objects are as before. |
| LuaGcCollector.Collector.SweepList | modules/lua/lgc.c:721-754 | At most the given number of objects of allgc is swept, dead ones freed, live ones white and as before, also while new objects come in front. |
| LuaGcCollector.Collector.SweepToLive | modules/lua/lgc.c:760-769 | Sweeps up to the first live object. |
| LuaGcCollector.Collector.EnterSweep | modules/lua/lgc.c:923-933 | Sweeping starts with a state from which new objects are linked before what is still to be swept. |
| LuaGcCollector.Collector.StepAtomic | modules/lua/lgc.c:1046-1056 | The atomic step followed by the start of sweeping keeps all that holds between two steps. |
| LuaGcCollector.Collector.StepSweepString | modules/lua/lgc.c:1058-1066 | At most GCSWEEPMAX chains of strings are swept, and the next phase entered after the last. |
| LuaGcCollector.Collector.FinishCycle | modules/lua/lgc.c:1081-1088 | The end of a cycle: every object is of the current white, and the string table may have been halved; all that is reachable stays as it was. |
| LuaGcCollector.Collector.SingleStep | modules/lua/lgc.c:1027-1092 | In every phase a step keeps the whole invariant, leaves all that is reachable and its contents as they were, and comes closer to the end of the cycle; from a pause on, only reachable objects and fixed strings can outlive the cycle. |
| LuaGcCollector.Collector.RunToPause | modules/lua/lgc.c:1099-1103 | Terminates in the pause, with everything reachable as it was. |
| LuaGcCollector.Collector.FullGC | modules/lua/lgc.c:1172-1201 | From any state of the collector: terminates in the pause, and the objects left are exactly the reachable and the fixed ones, unchanged, all of the current white. |
| LuaGcCollector.Collector.LinkUpval | modules/lua/lfunc.c:66-70 | The new upvalue is first in the ring, by the four assignments of the code. |
| LuaGcCollector.Collector.UnlinkUpval | modules/lua/lfunc.c:75-79 | The upvalue is out of the ring, by the two assignments of the code; the others keep their order. |
| LuaGcCollector.Collector.RehashChain | modules/lua/lstring.c:73-83 | One chain is emptied and its strings put where they belong in the new size. |
| LuaGcCollector.Collector.Rehash | modules/lua/lstring.c:64-95 | Every string is in the chain its hash has in the new size, larger or smaller; no object changes. |
| LuaGcCollector.Collector.Resize | modules/lua/lstring.c:64-95 | In any phase: a sweep of strings that is under way is finished first, which frees dead strings only; then the table has the wanted size. All that is alive stays as it was. |
| LuaGcCollector.Collector.CheckSizes | modules/lua/lgc.c:780-788 | A table of which less than half is in use is halved, any other left alone; no object changes. |
| LuaGcCollector.Collector.EndSweep | modules/lua/lgc.c:1081-1088 | The main thread turns white, and with it every object is; the table may be halved. |
| LuaGcCollector.Collector.constructor | modules/lua/lstate.c:183-196 | A new state: a main thread, a string table of MINSTRTABSIZE empty chains, in the pause, sound. |
| LuaGcCollector.Collector.MarkObject | modules/lua/lgc.c:83-87 | The object is marked if it was white. |
| LuaGcCollector.Collector.CloseFirst | modules/lua/lfunc.c:93-105 | The topmost open upvalue is freed if dead, else moved to allgc with the value of its slot; the lists stay consistent, other objects as they were. |
| LuaGcCollector.Collector.StartCycle | modules/lua/lgc.c:1030-1039 | Marking starts: only reachable objects are marked. |
| LuaGcCollector.Collector.StepPropagate | modules/lua/lgc.c:1041-1045 | One gray object less, or fewer white ones; what is marked stays reachable in an exact cycle. |
| LuaGcCollector.Collector.SweepStrings | modules/lua/lgc.c:1058-1063 | At most GCSWEEPMAX chains are swept. |
| LuaGcCollector.Collector.StepSweep | modules/lua/lgc.c:1076-1080 | At most GCSWEEPMAX objects are swept; live objects are as they were. |
| LuaGcCollector.Collector.SweepMain | modules/lua/lgc.c:1081-1085 | The main thread turns white, and with it every object is. |
| LuaGcMutator.BarrierBack | modules/lua/lgc.c:164-170 | The black object is gray and in grayagain, and the whole state sound again. |
| LuaGcMutator.Barrier | modules/lua/lgc.c:144-155 | The white value is marked, or the object white while sweeping, and the whole state sound again. |
| LuaGcMutator.Put | modules/lua/lgc.h:114-127 | Any write of a live value to any object, with the barrier for its kind, keeps the whole state sound. |
| LuaGcMutator.SetProtoCache | modules/lua/lgc.c:181-192 | A prototype remembers a closure, after its barrier. |
| LuaGcMutator.NewObj | modules/lua/lgc.c:217-233 | A fresh object with nil fields, alive, of the current white; nothing else changes. |
| LuaGcMutator.LinkString | modules/lua/lstring.c:122-127 | A new short string comes to the front of the chain of its hash; nothing else changes. |
| LuaGcMutator.Room | modules/lua/lstring.c:120-121 | A table with as many strings as chains is doubled, unless it cannot grow; if its strings are being swept that is finished first, which frees dead ones only. What is alive stays alive, as it was. |
| LuaGcMutator.NewString | modules/lua/lstring.c:116-127 | A new string, alive, first in the chain of its hash, in a table that was doubled exactly if it was crowded and could grow; live objects stay as they were, and without doubling nothing else changes at all. |
| LuaGcMutator.FindString | modules/lua/lstring.c:133-150 | A string found in the table is alive afterwards, even if it was dead and not yet collected. |
| LuaGcMutator.FindUpval | modules/lua/lfunc.c:47-72 | The one open upvalue for the slot, shared, resurrected if it was dead, or new; never a second for the same slot. |
| LuaGcMutator.Close | modules/lua/lfunc.c:89-107 | Exactly the open upvalues at the level or above are closed, with the value of their slot, or freed if dead; those below stay open and shared; every live object, upvalues included, refers to what it did. |
| LuaGcMutator.Store | modules/lua/lgc.h:114-127 | A field of an object on the stack, or the slot an open upvalue shares, gets the value; all other objects stay. |
| LuaGcMutator.Load | modules/lua/lgc.h:14-25 | A field of an object comes to the stack, and is alive; no other object changes. |
| LuaGcMutator.MakeClosure | modules/lua/lvm.c:402-418 | A new closure with its prototype and upvalues, each the one upvalue of its slot or that of the enclosing closure, remembered by the prototype; objects other than the stack stay. |
| LuaGcMutator.Step | modules/lua/lgc.c:1027-1092 | Every action of the program changes stack, objects, lists and roots as it should and nothing else, or nothing at all if its operands do not exist; every step of the collector leaves stack, roots and reachable objects alone; the whole invariant is kept. |
| LuaGcMutator.Run | modules/lua/lgc.h:14-25 | In every interleaving of program and collector all that is reachable from the roots is in the heap and not dead, and while marking no black object refers to a white one. |
| LuaGcMutator.BlackMarked | modules/lua/lgc.h:14-25 | While marking, a black object never refers to a white one. |
| LuaGcMutator.NewUpval | modules/lua/lfunc.c:59-71 | A new open upvalue before the first of a lower slot; lists stay ordered. |
| LuaGcMutator.SetStack | modules/lua/lgc.c:504-516 | The slot has the value, one past the top makes the stack one longer, all other slots and all other objects are as they were; no barrier: a thread is never black. |
| LuaGcMutator.Pop | modules/lua/lvm.c:503-509 | Exactly the upvalues at the level or above are closed and the slots dropped; all else that is alive has the contents it had. |
| LuaGcMutator.ProtoBarrier | modules/lua/lgc.c:181-192 | The back barrier for a black prototype with a cached closure, the forward one for one without; the closure may be remembered then. |
| LuaGcMutator.SetRegistry | modules/lua/lgc.c:992-994 | The registry changes without a barrier: the atomic step marks it again. |
| LuaGcMutator.SetMetatable | modules/lua/lgc.c:992-994 | So do the metatables of basic types. |
| LuaGcMutator.Resume | modules/lua/lgc.c:991 | Another thread runs: the atomic step marks it. |
| LuaGcMutator.NewClosure | modules/lua/lfunc.c:30-36 | A new closure with its prototype, anchored on the stack before it is filled. |
| LuaGcMutator.FillUpvals | modules/lua/lvm.c:408-413 | Each upvalue is the one of its slot, or that of the enclosing closure. |
| LuaGcMutator.MoveEffect | modules/lua/lapi.c:216-231 | Copying, clearing, reading a field or a cached closure, finding a string: the slot has just that value, a slot one past the top makes the stack one longer, all other slots, objects, lists and roots are as they were. |
| LuaGcMutator.NewEffect | modules/lua/lgc.c:215-227 | A new object: an address not in use, empty fields, first in allgc, in the slot; the other slots and objects are as they were. |
| LuaGcMutator.StringEffect | modules/lua/lstring.c:116-127 | A new string in the slot, first in the chain of its hash modulo the size; the table is doubled exactly if it has no fewer strings than chains and can grow; what was alive is as it was. |
| LuaGcMutator.WriteEffect | modules/lua/lvm.c:587-600 | A write: the field has the value, one past the last makes the object one longer, and nothing else changes; for an open upvalue the field is its slot of the stack it lives in. |
| LuaGcMutator.ClosureEffect | modules/lua/lvm.c:402-418 | A new closure has its prototype and, for each captured variable, the open upvalue of just that slot or what the enclosing closure has in just that field; the prototype remembers it. |
| LuaGcMutator.LeaveEffect | modules/lua/lfunc.c:89-107 | Leaving a block cuts the stack; an upvalue open in one of the slots is closed with the value of its slot if it is alive and freed if not, one in a lower slot is untouched. |
| LuaGcMutator.CollectEffect | modules/lua/lgc.c:1027-1092 | After a step of the collector or a whole collection every object at the end of a way from a root, field by field, is there with the same kind and the same in its fields. |
| LuaGcMutator.RootEffect | modules/lua/lstate.h:117-145 | Setting the registry or a metatable of a basic type, and switching coroutines, change just that root. |
| LuaGcMutator.PartsAlive | modules/lua/lgc.h:14-25 | The roots are alive, and so is what a live object has in its fields, or a live open upvalue in its slot. |
| LuaUvRing.Consistent | modules/lua/lfunc.c:66-78 | Around the ring every upvalue, and the sentinel, is the previous of its next and the next of its previous. |
| LuaUvRing.FirstLinked | modules/lua/lfunc.c:66-69 | Linking a new upvalue behind the sentinel puts it first on the way around. |
| LuaUvRing.Bypassed | modules/lua/lfunc.c:75-79 | Linking its neighbours to each other takes exactly one upvalue off the way around. |
| LuaGcResize.NothingMoved | modules/lua/lstring.c:68-72 | New chains are empty, and every string is where its hash has it in the old size. |
| LuaGcResize.MoveMembers | modules/lua/lstring.c:77-82 | Moving one string puts it into its new chain and takes it out of the old one. |
| LuaGcResize.OneMoved | modules/lua/lstring.c:77-82 | Moving one string where its hash has it in the new size keeps every string in exactly one chain. |
| LuaGcResize.DrainOne | modules/lua/lstring.c:77-82 | So does moving the next string of a chain that was set aside. |
| LuaGcResize.DrainEnds | modules/lua/lstring.c:73-83 | When all strings of a chain have moved every one is in the chain its hash has in the new size, or waits for its own chain to be done. |
| LuaGcResize.AllMoved | modules/lua/lstring.c:84-91 | When all chains are done every string is where its hash has it in the new size, and the chains to be cut off are empty. |
| LuaGcResize.RehashedOk | modules/lua/lstring.c:64-95 | With no strings being swept a rehash keeps all that holds between two steps of the program or the collector. |
| LuaGcResize.InUseIs | modules/lua/lstring.c:117-119 | The lengths of all chains together are the number of strings in the table. |
| LuaGcEphemeron.Marker.IsCleared | modules/lua/lgc.c:130-137 | True exactly for a key that is neither marked nor a string; a string key is marked. |
| LuaGcEphemeron.Marker.VisitEntry | modules/lua/lgc.c:401-415 | A live key marks its value; with a key that is not marked a white value has to wait. |
| LuaGcEphemeron.Marker.TraverseEphemeron | modules/lua/lgc.c:387-422 | The table keeps its strong references, is filed as waiting if an entry has to wait, and reports whether a value was marked; if not, no entry with a live key has a white value. |
| LuaGcEphemeron.Marker.PropagateAll | modules/lua/lgc.c:568-570 | Terminates; everything marked is done, but for tables that wait; nothing is marked that is not in every closed set around the marks. |
| LuaGcEphemeron.Marker.ConvergeEphemerons | modules/lua/lgc.c:596-611 | Terminates, with the least set closed under references and under "key marked, so value marked" around what was marked before. |
| LuaGcEphemeron.SameMarks | modules/lua/lgc.c:596-611 | The order of tables and entries makes no difference to what is marked in the end. |
| LuaGcEphemeron.QuietSame | modules/lua/lgc.c:130-137 | Marking strings makes no entry live that was not. |
| FatVolume.PutEntry | modules/fatfs/ff.c:366-417 | Writing an entry of a FAT12, FAT16 or FAT32 table changes that entry, taken to 12, 16 or 28 bits, and no other, also when two 12-bit entries share a byte or one lies in two sectors. |
| FatVolume.Get12 | modules/fatfs/ff.c:339-344 | The two bytes get_fat reads give the 12-bit entry, of even and odd clusters. |
| FatVolume.ClusterPlace | modules/fatfs/ff.c:528-536 | The first cluster lies at the start of the data area, each next one csize sectors further on; no other number is a cluster. |
| FatVolume.Bytes12 | modules/fatfs/ff.c:338-344 | A 12-bit entry, by bytes of the sectors of the table: one and a half, low part first, starting in the middle of a byte for odd clusters. |
| FatVolume.Bytes16 | modules/fatfs/ff.c:346-348 | A 16-bit entry: two bytes, low one first, 256 to a sector. |
| FatVolume.Bytes32 | modules/fatfs/ff.c:350-352 | A 32-bit entry: four bytes, 128 to a sector, without the top four bits. |
| FatVolume.FourBytes | modules/fatfs/ff.c:404-408 | Writing a 32-bit entry writes all four bytes and no others. |
| FatWindow.AgreeAfter | modules/fatfs/ff.c:252-266 | Copies of the table that agree still do when a sector was written to all its places. |
| FatWindow.FatFs.constructor | modules/fatfs/ff.c:1465-1588 | After mounting, nothing is in the window and what is seen is the disk, whether the copies of the table agree or not. |
| FatWindow.FatFs.Reflect | modules/fatfs/ff.c:259-265 | A changed sector of the table is written to its place in every copy; all other sectors stay. |
| FatWindow.FatFs.FlushWindow | modules/fatfs/ff.c:252-266 | A dirty window is written back: the disk now shows what was seen, all copies of a flushed table sector equal it, all other sectors stay; copies that agreed when the volume was mounted agree. |
| FatWindow.FatFs.MoveWindow | modules/fatfs/ff.c:244-276 | The wanted sector is in the window; what the program sees of the disk never changes. |
| FatWindow.FatFs.GetFat | modules/fatfs/ff.c:324-356 | The entry of the cluster, for all three widths, or 1 for a number out of range; nothing seen changes. |
| FatWindow.FatFs.PutFat | modules/fatfs/ff.c:366-417 | Seen through the dirty window, the table is the old one updated at the cluster; no sector outside the table changes; an error for a number out of range. |
| FatWindow.FatFs.GetFat12 | modules/fatfs/ff.c:338-344 | The 12-bit entry. |
| FatWindow.FatFs.GetFat16 | modules/fatfs/ff.c:346-348 | The 16-bit entry. |
| FatWindow.FatFs.GetFat32 | modules/fatfs/ff.c:350-352 | The 28-bit entry. |
| FatWindow.FatFs.PutFat12 | modules/fatfs/ff.c:384-396 | The two bytes of the 12-bit entry are written, in one sector or two, the other nibble kept. |
| FatWindow.FatFs.PutFat16 | modules/fatfs/ff.c:398-402 | The 16-bit entry is written. |
| FatWindow.FatFs.PutFat32 | modules/fatfs/ff.c:404-408 | The 28-bit entry is written. |
| FatWindow.PlacesAre | modules/fatfs/ff.c:259-265 | A sector of the table has one place in each copy, a table further on, and no others. |
| FatChains.Conserved | modules/fatfs/ff.c:428-517 | Clusters are conserved: what one chain gains was free and what it loses is, as long as the other chains stay. |
| FatChains.FreedChain | modules/fatfs/ff.c:428-458 | On a table of disjoint chains, following and freeing entries from the head of a chain frees exactly that chain. |
| FatChains.ChainFreed | modules/fatfs/ff.c:428-458 | The other chains stay chains. |
| FatChains.ChainStarted | modules/fatfs/ff.c:469-517 | A free cluster with an end mark is a new chain. |
| FatChains.ChainStretched | modules/fatfs/ff.c:469-517 | Linked behind the last cluster of a chain it makes that chain one longer. |
| FatChains.ChainCut | modules/fatfs/ff.c:2407-2414 | An end mark in the middle of a chain leaves its first part and makes the rest a chain to be freed. |
| FatChains.CountFreed | modules/fatfs/ff.c:449-452 | Freeing a used cluster makes one more free. |
| FatChains.FreedTrail | modules/fatfs/ff.c:428-458 | On any table, damaged or not, remove_chain frees exactly the entries on the way it follows: up to an end mark, a free or bad entry, or an entry it has freed. |
| FatAlloc.ChainFreedOk | modules/fatfs/ff.c:428-458 | On a chain remove_chain meets no error. |
| FatAlloc.RemoveChain | modules/fatfs/ff.c:428-458 | Terminates on any table, cyclic ones included; exactly the entries on the way are freed; an error exactly for a number out of range or an entry 1 on the way; a count of free clusters that was right stays so, and any other is no obstacle. |
| FatAlloc.FoundWhat | modules/fatfs/ff.c:489-501 | On any table the search gives 0 exactly if no entry is 0 or 1, 1 only if some entry is 1, and else a free cluster. |
| FatAlloc.FoundChained | modules/fatfs/ff.c:489-501 | On a table of chains it misses no free cluster and meets no error. |
| FatAlloc.FindFree | modules/fatfs/ff.c:489-501 | On any table: the first free cluster from behind the given one and around to it, 1 if an entry 1 comes first, 0 if there is neither. |
| FatAlloc.CreateChain | modules/fatfs/ff.c:469-517 | On any table: the next cluster, 1 for an entry below 2, else a free cluster, which exactly then becomes an end, with all bits of its entry set, and is linked behind the given one, no other entry changing; 0 or 1 as the search gives it; nothing changes unless a cluster is allocated. A count of free clusters that was right stays so. |
| FatAlloc.GrowChain | modules/fatfs/ff.c:469-517 | On a table of chains: 0 exactly if no cluster is free and none follows; otherwise the next cluster of the chain if there is one, else one formerly free cluster that starts a chain or extends exactly the given one; no error is met. |
| FatAlloc.Scan | modules/fatfs/ff.c:2352-2369 | Counts the zero entries of a 16- or 32-bit table, the two reserved ones included. |
| FatAlloc.Scan12 | modules/fatfs/ff.c:2345-2351 | Counts the free clusters of a 12-bit table; an error exactly if an entry is 1. |
| FatAlloc.GetFree | modules/fatfs/ff.c:2317-2376 | A recorded count of at most as many clusters as there are is given as it is, so the answer is right exactly if that count is. Otherwise the entries are counted: an error exactly for a 12-bit table with an entry 1; else the answer is right exactly if the type is FAT12 or the two reserved entries are not zero. |
| FatAlloc.CountBlank | modules/fatfs/ff.c:2352-2369 | Whatever the boot sector and the data are: on a 16-bit table whose first sector is blank two clusters more than are free are reported. |
| FatAlloc.CountStale | modules/fatfs/ff.c:2333-2337 | On a FAT32 drive that records no free cluster none is reported, though one is free. |
| FatAlloc.TrailResult | modules/fatfs/ff.c:428-458 | The only error on that way is an entry 1 at its end. |
| FatAlloc.Allocate | modules/fatfs/ff.c:504-518 | The free cluster becomes an end, all bits of its entry set, and is linked behind the given one; no other entry changes. |
| FatAlloc.EndMark | modules/fatfs/ff.c:504 | The end mark has all bits of the entry set: FFF, FFFF or FFFFFFF. |
| FatAlloc.FoundFirst | modules/fatfs/ff.c:489-501 | It is the first of the entries 0 or 1 from behind the start and around. |
| FatData.RoomNeed | modules/fatfs/ff.c:1886-1899 | A chain has room for so many bytes exactly if it has the clusters they need. |
| FatData.SectorsApart | modules/fatfs/ff.c:528-536 | Different sectors of files are different sectors of the volume. |
| FatData.AfterRun | modules/fatfs/ff.c:1803-1823 | After whole sectors the position and the sector fields agree again. |
| FatData.RunWritten | modules/fatfs/ff.c:1910-1933 | Writing whole sectors directly is overwriting that part of the file. |
| FatData.PartWritten | modules/fatfs/ff.c:1934-1955 | Writing part of a sector through the window is overwriting that part of the file. |
| FatData.SeekEnds | modules/fatfs/ff.c:2161-2168 | The last step of f_lseek gives sector fields that belong to the position. |
| FatData.BytePlace | modules/fatfs/ff.c:1796-1808 | Byte p of a file is byte p % 512 of the sector that is the one p / 512 % csize of its cluster p / (512 csize), counted from the start of the data area. |
| FatData.OverwriteAt | modules/fatfs/ff.c:1950-1956 | Writing over the contents replaces the bytes from the position on, may make the file longer, and leaves all others. |
| FatData.NeedUp | modules/fatfs/ff.c:1883-1900 | The clusters needed are the number of bytes over that of a cluster, rounded up. |
| FatFile.Fil.constructor | modules/fatfs/ff.c:1747-1753 | An opened file is the array of bytes its chain holds, at position 0. |
| FatFile.Fil.Read | modules/fatfs/ff.c:1765-1850 | Gives exactly the bytes from the position to the end of the request or of the file, moves the position behind them and changes nothing seen; on which sectors those bytes are is in ContentByte and ChainLinks. |
| FatFile.Fil.ReadChunk | modules/fatfs/ff.c:1786-1850 | One round, whole sectors directly or part of one through the window, gives the next bytes of the file; a dirty window is copied over its sector. |
| FatFile.Fil.Write | modules/fatfs/ff.c:1860-1966 | The bytes replace those from the position on and extend the file. All are written exactly if the size stays below 4G and the clusters needed beyond those of the file are free; past 4G none are; else they end with the last cluster of a full drive. The file gains exactly the clusters the drive loses; other files are untouched. |
| FatFile.Fil.WriteChunk | modules/fatfs/ff.c:1881-1966 | One round overwrites the next bytes; the chain grows only if they need it to; 0 only at the end of the last cluster of a full drive. |
| FatFile.Fil.WriteWindow | modules/fatfs/ff.c:1934-1955 | Bytes of one sector change in the window; at the growing edge the sector is not read first. |
| FatFile.Fil.Truncate | modules/fatfs/ff.c:2385-2420 | The file ends at the position with exactly the clusters it needs, the others are free; no error is met; other chains and all data stay. |
| FatFile.Fil.WriteAll | modules/fatfs/ff.c:1883-1959 | The rounds write all bytes or end at the end of the last cluster of a full drive. |
| FatFile.Fil.WriteNext | modules/fatfs/ff.c:1901-1955 | From a sector boundary whole sectors go straight to the drive, part of one through the window. |
| FatFile.WriteEnds | modules/fatfs/ff.c:1881-1899 | A transfer that may end early only at the end of the last cluster of a full drive does so exactly if too few clusters are free. |
| FatFile.Fil.Shorten | modules/fatfs/ff.c:2400-2415 | Exactly the clusters the bytes before the position need stay. |
| FatFile.Fil.Forward | modules/fatfs/ff.c:2147-2157 | The next cluster of the chain, allocated for a writable file; none only at the end of the chain on a full drive. |
| FatFile.Fil.Land | modules/fatfs/ff.c:2161-2168 | The position so many bytes into a cluster, with sector fields that belong to it. |
| FatFile.Fil.Walk | modules/fatfs/ff.c:2145-2160 | Follows or extends the chain up to the cluster of the target, or to the end of the last cluster of a full drive; the chain grows no further. |
| FatFile.Fil.Seek | modules/fatfs/ff.c:2104-2193 | The position moves to the offset; past the end of a writable file the file grows up to it, or to the end of the last cluster, exactly if too few clusters are free; the old contents stay. |
| FatFile.Fil.NextRead | modules/fatfs/ff.c:1790-1799 | At a cluster boundary the next cluster of the chain is the current one. |
| FatFile.Fil.DirectRead | modules/fatfs/ff.c:1807-1813 | What comes from the drive, with the dirty window copied over its sector, is what is seen of these sectors. |
| FatFile.Fil.ReadSectors | modules/fatfs/ff.c:1803-1823 | Whole sectors of the file, at most to the end of the cluster. |
| FatFile.Fil.ReadPart | modules/fatfs/ff.c:1836-1843 | Part of one sector of the file. |
| FatFile.Fil.NextCluster | modules/fatfs/ff.c:1886-1898 | The next cluster of the file, followed if the chain goes on, else allocated; none only at the end of the chain on a full drive. |
| FatFile.Fil.NextWrite | modules/fatfs/ff.c:1886-1899 | At a cluster boundary the next cluster is the current one; a cluster more is taken only at the end of the chain, and if there is none the drive is full and nothing changes. |
| FatFile.Fil.DirectWrite | modules/fatfs/ff.c:1917-1923 | The sectors have the data, also seen through the window. |
| FatFile.Fil.WriteSectors | modules/fatfs/ff.c:1910-1933 | Whole sectors of the file are overwritten, at most to the end of the cluster. |
| FatFile.Fil.WritePart | modules/fatfs/ff.c:1934-1955 | Part of one sector of the file is overwritten. |
| FatFile.Fil.RemoveAll | modules/fatfs/ff.c:2403-2405 | The whole chain of the file is free, without an error. |
| FatFile.Fil.CutChain | modules/fatfs/ff.c:2406-2414 | The chain ends at the current cluster and the rest is free, without an error. |
| FatFile.Fil.Stretch | modules/fatfs/ff.c:2148-2152 | The cluster after the given one, followed or allocated; none only at the end of the chain on a full drive. |
| FatFile.Fil.FirstCluster | modules/fatfs/ff.c:2133-2142 | The first cluster of the file, allocated if there is none. |
| FatFile.Fil.SeekStart | modules/fatfs/ff.c:2123-2143 | A walk forward starts in the current cluster if the target is not before it, else in the first. |
| FatFile.Fil.SeekTo | modules/fatfs/ff.c:2117-2185 | The position is the target, or the end of the last cluster of a full drive, and the sector fields belong to it. |
| FatFile.Fil.ContentByte | modules/fatfs/ff.c:1796-1845 | Each byte of the contents, by its place on the drive, or in the window if that is dirty and shows its sector. |
| FatFile.Fil.ChainLinks | modules/fatfs/ff.c:1790-1798 | The first cluster of the file is the recorded one, each next one is the table entry of the one before, and the last entry is no cluster. |
| FatFile.OtherFileKept | modules/fatfs/ff.c:1860-1975 | An operation on one file leaves the chain of every other file, and each of its bytes at its place on the drive, as it was. |
| FatRun.Apply | modules/fatfs/ff.c:1765-2420 | Each operation is exactly the step of a byte array with a position and a number of clusters it can have. |
| FatRun.RunFile | modules/fatfs/ff.c:1765-2420 | Any sequence of f_read, f_write, f_lseek and f_truncate gives the bytes, positions and numbers of clusters of a byte array: a write or growing seek falls short exactly if the file cannot have the clusters it needs, and then ends with the last one; past 4G nothing is written; no operation fails. Only bytes exposed by seeking are open. |
| FatRun.ReachEnd | modules/fatfs/ff.c:1860-1975 | A transfer ends at its own end or at that of the clusters the file can have, whichever comes first. |
| FatRun.WriteBytes | modules/fatfs/ff.c:1860-1975 | What a write comes to: where it ends, each byte afterwards, and the clusters taken. |
| FatRun.SeekBytes | modules/fatfs/ff.c:2104-2235 | What a seek comes to: where it ends, that all bytes stay, and the clusters taken. |
| FatLfn.FitLfn | modules/fatfs/ff.c:729-754 | The entry holds its segment of the name, terminated and filled up, with the order, the mark of the last segment, attribute and checksum. |
| FatLfn.PickLfn | modules/fatfs/ff.c:696-724 | For any entry of an order above 0: true exactly if the fillers are right and all characters, and the terminator behind a last entry, are inside _MAX_LFN; then they are in their places of the buffer and the rest of it is unchanged. The places are outside the buffer exactly for order 0. |
| FatLfn.CmpLfn | modules/fatfs/ff.c:665-691 | For any entry of an order above 0: true exactly if the fillers are right, its characters fit and equal those of the buffer but for case, and a full last entry is followed by the terminator. The places are outside the buffer exactly for order 0. |
| FatLfn.ReadDamaged | modules/fatfs/ff.c:913-923 | An entry that starts with the byte 0x40 is taken for the last one of a name, and has order 0. |
| FatLfn.WriteName | modules/fatfs/ff.c:978-1014 | A name is stored as one entry a segment, the last segment first. |
| FatLfn.ReadName | modules/fatfs/ff.c:905-931 | The entries give the name back exactly if its length allows it: up to _MAX_LFN - 2 units, or _MAX_LFN - 1 when a multiple of 13. |
| FatLfn.FindName | modules/fatfs/ff.c:843-872 | The entries are accepted exactly if the probe equals the name but for case and the length is below _MAX_LFN, or equal to it and a multiple of 13, whatever stale data follows the terminator of the probe. |
| FatLfn.SegmentsSame | modules/fatfs/ff.c:665-691 | All segments match exactly if the whole names do. |
| FatLfn.RoundTrip | modules/fatfs/ff.c:696-754 | Storing a name and reading it back gives it back exactly for the readable lengths. |
| FatLfn.LongNames | modules/fatfs/ff.c:1120-1121 | Names of 29 and 30 units are accepted when they are created but do not come back; those of up to 28 do. |
| FatLfn.Places | modules/fatfs/ff.c:661-662 | The thirteen places of the characters, and which bits of the first byte are the order and the mark of the last entry. |
| FatLfn.SegmentBytes | modules/fatfs/ff.c:724-751 | Each byte of an entry: order with 40 added for the last, attribute 0F, type 0, checksum, no cluster, and at its place each unit of the name, then a zero, then FFFF. |
| LuaTableNodes.KeyAtMain | modules/lua/ltable.c:410-439 | A key put into its main position, whose value is nil, keeps every key reachable from its main position, also when that node is in the middle of another list. |
| LuaTableNodes.KeyBehindMain | modules/lua/ltable.c:429-434 | So does a key put into a free node linked behind the main position. |
| LuaTableNodes.KeyDisplaces | modules/lua/ltable.c:421-428 | So does moving the colliding key to a free node. |
| LuaTableNodes.OnePrevious | modules/lua/ltable.c:423-425 | No node has two predecessors. |
| LuaTableNodes.FreeAlone | modules/lua/ltable.c:387-394 | A free node is in no list. |
| LuaTableSizes.CeilLog2 | modules/lua/lobject.c:55-70 | The exponent of the least power of two that is not below the argument. |
| LuaTableSizes.CountInt | modules/lua/ltable.c:218-226 | An integer key that fits an array part counts in its slice, any other key nowhere. |
| LuaTableSizes.NumUseArray | modules/lua/ltable.c:229-251 | Counts the entries of the array part, slice by slice. |
| LuaTableSizes.NumUseHash | modules/lua/ltable.c:254-267 | Counts all entries of the hash part, and those with a fitting integer key by slices. |
| LuaTableSizes.ComputeSizes | modules/lua/ltable.c:196-215 | The largest power of two such that more than half of the indices up to it are in use, and how many of them are; 0 if there is none. |
| LuaTableSizes.NodeCount | modules/lua/ltable.c:279-301 | No nodes for no keys; else a power of two that is enough and less than twice as many. |
| LuaTableSizes.KeysAtMost | modules/lua/ltable.c:343-359 | At most n keys are integers from 1 to n. |
| LuaTable.Table.FindNode | modules/lua/ltable.c:481-503 | The node with the key, or none exactly if no node has it. |
| LuaTable.Table.Get | modules/lua/ltable.c:481-503 | Exactly the value the table holds for the key; nil for nil, for NaN and for absent keys. |
| LuaTable.Table.GetFreePos | modules/lua/ltable.c:387-394 | A free node with none free above it, or none exactly if there is none. |
| LuaTable.Table.FindPrevious | modules/lua/ltable.c:423 | The walk from the main position of the colliding key ends at its predecessor. |
| LuaTable.NodesDisplaced | modules/lua/ltable.c:421-428 | Moving the colliding key keeps every value and every list, and needs one node. |
| LuaTable.Table.Displace | modules/lua/ltable.c:421-428 | The new key is in its main position, the colliding one in the free node, the map is unchanged. |
| LuaTable.Table.PlaceBehind | modules/lua/ltable.c:429-434 | The new key is in the free node behind its main position, the map is unchanged. |
| LuaTable.Table.PlaceAtMain | modules/lua/ltable.c:410-439 | The new key is in its main position, the map is unchanged. |
| LuaTable.Table.NewKey | modules/lua/ltable.c:405-440 | The key gets a node and the map is unchanged; without a free node one rehash is enough: the second try never rehashes. |
| LuaTable.Table.FindOrNew | modules/lua/ltable.c:510-515 | The place of the value of a key, made if there is none; an error exactly for nil and NaN; a key that is there moves nothing. |
| LuaTable.Table.Set | modules/lua/ltable.c:510-515 | The map is the old one updated at the key, also for nil values, across all rehashes. |
| LuaTable.Table.SetVectors | modules/lua/ltable.c:270-301 | A new empty hash part with room for the wanted number of keys and less than twice as many, and the array part cut or filled up with nil. |
| LuaTable.Table.Resize | modules/lua/ltable.c:304-334 | The array part has the wanted size, the map is unchanged, and no more nodes are used than there are entries outside the array part. |
| LuaTable.NewSizes | modules/lua/ltable.c:343-359 | The sizes a rehash chooses: the array part is the largest power of two with more than half of its indices in use. |
| LuaTable.SizesFit | modules/lua/ltable.c:343-359 | The new hash part has room for exactly the entries outside the array part, and for the new key if it is outside. |
| LuaTable.Table.Rehash | modules/lua/ltable.c:343-359 | The map is unchanged; the array part has the size of the largest power of two such that more than half of the indices up to it are in use, the new key included, or none; and the new key is an index of it or some node is free. |
| LuaTable.Table.KeysCounted | modules/lua/ltable.c:216-268 | What rehash counts up to n, slice by slice, is the number of indices in use up to n, the new key included. |
| LuaTableNext.FindIndex | modules/lua/ltable.c:144-166 | The place of a key in the order of traversal; an error exactly for a key that is in no place. |
| LuaTableNext.Next | modules/lua/ltable.c:169-186 | The first non-nil entry behind that of the key, or the end; an error exactly for a key that is in no place. |
| LuaTableNext.EntriesAll | modules/lua/ltable.c:169-186 | The entries of a traversal are exactly the non-nil entries of the map. |
| LuaTableNext.EntriesOnce | modules/lua/ltable.c:169-186 | No key comes twice. |
| LuaTableNext.ForEach | modules/lua/ltable.c:169-186 | A traversal whose body assigns to the entry it is at, nil too, sees every entry exactly once, with the value it had, and stops; afterwards every value is the assigned one. |
| LuaTableLength.SomeNil | modules/lua/ltable.c:538-545 | Some index up to the number of places plus one has no value. |
| LuaTableLength.UnboundSearch | modules/lua/ltable.c:532-553 | Terminates with a boundary, also when doubling gives up. |
| LuaTableLength.GetN | modules/lua/ltable.c:560-576 | A boundary: 0 or a non-nil index, with nil at the next. |
| LuaTableLength.RunStores | modules/lua/ltable.c:510-515 | After any run of stores from the empty table every key has the value last stored. |
| LuaPattern.GoPreferred | modules/lua/lstrlib.c:395-469 | A step without a choice passes the preferred outcome on. |
| LuaPattern.ChosenPreferred | modules/lua/lstrlib.c:331-356 | If some number of repetitions leads to an outcome and every number preferred to it fails, its preferred outcome is that of the item. |
| LuaPattern.OneOutcome | modules/lua/lstrlib.c:395-469 | There is only one preferred outcome. |
| LuaMatch.MatchState.FindClassEnd | modules/lua/lstrlib.c:230-251 | The end of the item, or the error for a pattern that ends with a percent sign or lacks a bracket. |
| LuaMatch.MatchState.MatchBracketClass | modules/lua/lstrlib.c:274-294 | True exactly if the character is of one of the items of the set, or of none of a complemented set; ClassSet and RangeSet say what that is for simple sets. |
| LuaMatch.MatchState.SingleMatch | modules/lua/lstrlib.c:297-304 | True exactly if there is a character and it is of the item; ClassItem and OtherItem say what that is for each kind. |
| LuaMatch.MatchState.MatchBalance | modules/lua/lstrlib.c:310-328 | The end of the shortest balanced piece, or NULL exactly if there is none. |
| LuaMatch.MatchState.MatchCapture | modules/lua/lstrlib.c:384-392 | Goes behind a repetition of the captured text; an error for a capture that is not there or not closed. |
| LuaMatch.MatchState.CaptureToClose | modules/lua/lstrlib.c:222-227 | The last open capture, or the error exactly if none is open. |
| LuaMatch.MatchState.StartCapture | modules/lua/lstrlib.c:359-370 | The preferred outcome with the capture opened; on NULL captures are as before. |
| LuaMatch.MatchState.EndCapture | modules/lua/lstrlib.c:373-381 | The preferred outcome with the capture closed; on NULL it is open again. |
| LuaMatch.MatchState.MaxExpand | modules/lua/lstrlib.c:331-343 | The largest number of repetitions after which the rest matches; NULL exactly if there is none. |
| LuaMatch.MatchState.MinExpand | modules/lua/lstrlib.c:346-356 | The smallest such number. |
| LuaMatch.OptLeft | modules/lua/lstrlib.c:447-452 | If the character present leads nowhere, the outcome is that without it. |
| LuaMatch.PlusRest | modules/lua/lstrlib.c:456-458 | One character and then as for `*` is the preferred outcome for `+`. |
| LuaMatch.MatchState.MatchItem | modules/lua/lstrlib.c:443-466 | An item with or without a suffix: longest first, shortest first for `-`, present first for `?`. |
| LuaMatch.MatchState.MatchFrom | modules/lua/lstrlib.c:395-469 | Terminates with the outcome of the preferred way to follow the pattern, its captures included; NULL exactly if every way fails, and then the captures are as before; an error exactly if the preferred way that does not fail runs into it. |
| LuaMatch.Find | modules/lua/lstrlib.c:536-583 | The leftmost start from which the pattern matches, with its preferred match; only the first start behind `^`; nothing exactly if it fails from all of them. FindClass, FindRun and FindAnchored say what is found for simple patterns. |
| LuaSort.OrderEnds | modules/lua/ltablib.c:187-208 | First, middle and last element in order; the elements are rearranged within the range; whatever the comparison, the middle is less than the first only if the first is less than the middle too. |
| LuaSort.UpScanned | modules/lua/ltablib.c:216-220 | With a strict weak order the scan stops at the pivot at the latest. |
| LuaSort.Partition | modules/lua/ltablib.c:209-234 | The pivot is in its final place with nothing greater before and nothing less behind it; whatever the comparison answers, no place outside the range changes. A scan runs past its end only if some two elements are taken both ways, and the first one does if all are. |
| LuaSort.OuterOn | modules/lua/ltablib.c:235-243 | Once one side of the pivot is sorted, only the other side is left to do. |
| LuaSort.AuxSort | modules/lua/ltablib.c:184-245 | Terminates and rearranges the range for any comparison; with a strict weak order it is sorted. The order function is found invalid only if it takes some two elements, or one and itself, both ways; if it takes all so, exactly for four elements or more; fewer than 2^d elements take at most d nested calls. |
| LuaSort.Sort | modules/lua/ltablib.c:247-255 | The list is a permutation of what it was, sorted for a strict weak order; an error only if the function takes some two elements both ways, and for one that takes all so, as `<=` does equal ones, exactly if there are more than three. |
| LuaSort.Scans | modules/lua/ltablib.c:214-226 | One round of the two scans: with a strict weak order both stop where they should; one runs past its end only if some two elements are taken both ways, and the first does if all are. |
| LuaSort.KeysOrdered | modules/lua/ltablib.c:170-184 | Comparing by less on any numeric key is a strict weak order, by at most it is not. |
| LuaStrings.Pushed | modules/lua/lstring.c:77-82 | Moving one object to the front of its new bucket keeps all buckets threaded. |
| LuaStrings.Rehashed | modules/lua/lstring.c:73-90 | When all buckets are done every object is in the bucket of its hash for the new size, and the buckets about to be cut off are empty. |
| LuaStrings.StringTable.RehashBucket | modules/lua/lstring.c:73-84 | The objects of one bucket go where they belong; none is lost or duplicated. |
| LuaStrings.StringTable.Resize | modules/lua/lstring.c:64-92 | The same objects, each in the bucket of its hash, for any larger or smaller power of two. |
| LuaStrings.StringTable.NewString | modules/lua/lstring.c:116-127 | A new object with the contents joins the table, first in the bucket of its hash; the table is doubled before exactly if it has no fewer strings than buckets and fewer than 2^30 buckets. |
| LuaStrings.StringTable.Intern | modules/lua/lstring.c:133-150 | The object with these contents: the one in the table if there is one, else a new one. |
| LuaStrings.NotThere | modules/lua/lstring.c:133-150 | A string that is not in the bucket of its hash is not in the table. |
| LuaStrings.StringTable.Erase | modules/lua/lgc.c:727-734 | The string behind the given one is unlinked and counted off; all others stay. |
| LuaStrings.StringTable.Sweep | modules/lua/lgc.c:721-754 | Exactly the dead strings of a bucket are unlinked and counted off. |
| LuaStrings.StringTable.CheckSizes | modules/lua/lgc.c:780-788 | A table of which less than half is in use is halved; its objects stay. |
| LuaStrings.Run | modules/lua/lstring.c:64-150 | In every run of interning, sweeping and resizing, two of the strings asked for that are still in the table are the same object exactly if their contents are equal. |
| LuaStrings.Belongs | modules/lua/lstring.c:133-150 | Every string in the table is in the bucket of its hash modulo the size. |
| LuaChunk.ValueLittle | modules/lua/lundump.c:57-63 | An integer that fits its size is the value of its bytes. |
| LuaChunkTrip.IntTrip | modules/lua/lundump.c:57-63 | A dumped count is read back. |
| LuaChunkTrip.StrTrip | modules/lua/lundump.c:72-84 | So is a string, or no string, of any contents. |
| LuaChunkTrip.VectorTrip | modules/lua/lundump.c:86-92 | So is a vector of instructions or line numbers. |
| LuaChunkTrip.ConstsTrip | modules/lua/lundump.c:96-125 | So are the constants; their bytes are in ConstLayout and ConstRead. |
| LuaChunkTrip.DebugTrip | modules/lua/lundump.c:149-169 | So is the debug information, or its absence from a stripped dump. |
| LuaChunkTrip.FunctionTrip | modules/lua/lundump.c:171-182 | Every function tree, dumped and followed by any bytes, is read back, and exactly its dump is read; a stripped dump gives the tree without debug information. |
| LuaChunkTrip.ProtosTrip | modules/lua/lundump.c:126-133 | The same for the inner functions. |
| LuaChunkTrip.ChunkTrip | modules/lua/lundump.c:206-233 | The same for a whole chunk, header included. |
| LuaChunkTrip.OtherHost | modules/lua/lundump.c:190-201 | A chunk from a host with other sizes is refused as incompatible. |
| LuaDump.DumpState.DumpBlock | modules/lua/ldump.c:29-37 | The writer gets the block, unless it has refused before. |
| LuaDump.DumpState.DumpVector | modules/lua/ldump.c:55-59 | The size and the elements are written. |
| LuaDump.DumpState.DumpString | modules/lua/ldump.c:61-74 | The size, the characters and a zero byte are written, or a size of zero. |
| LuaDump.DumpState.DumpConstants | modules/lua/ldump.c:80-104 | The count and the constants are written, with the tags and values of ConstLayout. |
| LuaDump.DumpState.DumpProtos | modules/lua/ldump.c:104-107 | The inner functions are written. |
| LuaDump.DumpState.DumpUpvalues | modules/lua/ldump.c:109-118 | The upvalue descriptions are written. |
| LuaDump.DumpState.DumpDebug | modules/lua/ldump.c:120-137 | The debug information is written, or none when stripping. |
| LuaDump.DumpState.DumpFunction | modules/lua/ldump.c:139-150 | The function is written, or a beginning of it up to a refusal. |
| LuaDump.Dump | modules/lua/ldump.c:162-173 | Either the status is 0 and the writer got exactly the chunk, whose bytes are in ChunkStart and FunctionLayout, or the status is an answer of the writer and it got a beginning of the chunk. |
| LuaUndump.Zio.Fill | modules/lua/lzio.c:21-33 | The first byte of the next piece, or the end exactly if there is none. |
| LuaUndump.Zio.Read | modules/lua/lzio.c:46-65 | The next bytes, however the reader splits them, or exactly how many are missing. |
| LuaUndump.LoadState.LoadBlock | modules/lua/lundump.c:45-48 | The next bytes, or the error for a truncated chunk. |
| LuaUndump.LoadState.LoadInt | modules/lua/lundump.c:57-63 | The next count; negative ones are an error. |
| LuaUndump.LoadState.LoadString | modules/lua/lundump.c:72-84 | The next string, or none. |
| LuaUndump.LoadState.LoadConstants | modules/lua/lundump.c:96-125 | The constants that the bytes give, as ConstRead spells out. |
| LuaUndump.LoadState.LoadProtos | modules/lua/lundump.c:126-133 | The inner functions that the bytes give. |
| LuaUndump.LoadState.LoadUpvalues | modules/lua/lundump.c:135-147 | The upvalue descriptions that the bytes give. |
| LuaUndump.LoadState.LoadNames | modules/lua/lundump.c:167-168 | The names of upvalues, each after it has been read; the first for which there is no upvalue goes behind the array. |
| LuaUndump.LoadState.LoadDebug | modules/lua/lundump.c:149-169 | The debug information that the bytes give, or the first error; a name that is read although all upvalues have one is written behind the array, of which nothing is promised. |
| LuaUndump.LoadState.LoadFunction | modules/lua/lundump.c:171-182 | The function tree that the bytes give, or the first error, or the first write of an upvalue name behind its array. |
| LuaUndump.LoadState.LoadHeader | modules/lua/lundump.c:190-201 | Accepts exactly the header of this host, and says which part of another is wrong. |
| LuaUndump.Undump | modules/lua/lundump.c:206-233 | Exactly what reading the unread bytes as a chunk gives, errors included, however they are split; up to the first write of an upvalue name behind its array, if there is one. |
| LuaUndump.LoadDumped | modules/lua/lundump.c:206-233 | A dump, in any pieces and with anything behind it, gives its function back and leaves exactly what is behind it unread. |
| LuaUndump.StreamAll | modules/lua/lzio.c:21-33 | A reader of non-empty pieces gives all its bytes. |
| LuaVm.EvalNumbers | modules/lua/lparser.c:1034-1061 | With a comparison that orders numbers, each of the six operators on two numbers has just the value it should: x less than y, greater, at most, at least, equal, not equal. |
| LuaVm.EvalLogic | modules/lua/lobject.h:171 | `not`, `and` and `or`: only nil and false count as false, and the result of `and` and `or` is one of the operands. |
| LuaVm.StepLoads | modules/lua/lvm.c:558-580 | OP_MOVE, OP_LOADK, OP_LOADBOOL, OP_LOADNIL and OP_NOT change just the registers the manual of the opcodes says, a boolean load with C set skips an instruction. |
| LuaVm.StepTests | modules/lua/lvm.c:669-709 | A test and the jump behind it: the jump is taken if the comparison comes out as A says, or the truth value as C says, and skipped otherwise; OP_TESTSET copies the value if it is taken; operands from 256 on are constants. |
| LuaVm.StepJumps | modules/lua/lvm.c:503-507 | A jump goes to its target; back, it takes a turn. |
| LuaVm.PutNilsAt | modules/lua/lvm.c:575-580 | OP_LOADNIL sets registers A to A+B to nil and no others. |
| LuaVm.EvalSimple | modules/lua/lparser.c:934-985 | A constant has its own value, a local that of its register. |
| LuaPatternUses.ClassItem | modules/lua/lstrlib.c:254-271 | `%` and a class letter stand for the characters of the class, `%` and its capital for all others, in every locale that knows the letter. |
| LuaPatternUses.OtherItem | modules/lua/lstrlib.c:254-304 | `%` and any other character stand for that character, `%z` for a zero byte, a dot for all, an ordinary character for itself. |
| LuaPatternUses.ClassSet | modules/lua/lstrlib.c:274-294 | The set `[%l]` and its complement, with small and capital letters. |
| LuaPatternUses.RangeSet | modules/lua/lstrlib.c:274-294 | The sets `[x-y]` and `[xy]`. |
| LuaPatternUses.RunThen | modules/lua/lstrlib.c:331-381 | If the rest of the pattern matches behind them, `?` takes one character at most, `*` and `+` all there are, `-` none. |
| LuaPatternUses.RunLast | modules/lua/lstrlib.c:331-381 | A last item with a suffix: where the match ends, and that `+` wants one character at least. |
| LuaPatternUses.CapturedRun | modules/lua/lstrlib.c:358-378 | `(%l+)` captures the run it matches. |
| LuaPatternUses.ReferenceStep | modules/lua/lstrlib.c:358-393 | `()` captures the position; `%1` to `%9` stand for the text of the closed capture of that number, and are an error for one that is missing or open. |
| LuaPatternUses.FrontierStep | modules/lua/lstrlib.c:421-433 | `%f[%l]` matches where the character before is not of the class and the next one is, a zero byte standing before the beginning and behind the end. |
| LuaPatternUses.BalancedCounts | modules/lua/lstrlib.c:310-328 | `%bxy` matches the shortest piece that starts with x and has as many of the one as of the other. |
| LuaPatternUses.FindItem | modules/lua/lstrlib.c:536-583 | A pattern of one item is found at the leftmost character of the item. |
| LuaPatternUses.FindClass | modules/lua/lstrlib.c:536-583 | `%d`, and any other class, is found at its leftmost character, and that alone; an error never. |
| LuaPatternUses.FindRun | modules/lua/lstrlib.c:536-583 | `%l+` is found at the leftmost run of the class, and all of it. |
| LuaPatternUses.FindAnchored | modules/lua/lstrlib.c:536-583 | `^%l$` is found exactly if the rest of the subject is one character of the class. |
| LuaPatternUses.EdgeSet | modules/lua/lstrlib.c:236-294 | In `[]]` and `[x-]` the bracket and the minus sign stand for themselves. |
| LuaChunkFormat.LittleByte | modules/lua/ldump.c:25-48 | Byte i of a count x is x / 256^i % 256. |
| LuaChunkFormat.ValueByte | modules/lua/lundump.c:36-62 | Reading adds the bytes up with the same weights. |
| LuaChunkFormat.NegativeCount | modules/lua/lundump.c:56-62 | A count is refused exactly if the top bit of its last byte is set. |
| LuaChunkFormat.StrLayout | modules/lua/ldump.c:61-74 | A string is its length with the zero byte at its end, its bytes and that byte; no string is a size of zero. |
| LuaChunkFormat.ConstLayout | modules/lua/ldump.c:80-100 | Constants are written with the tags 0, 1, 3 and 4 in front of their values. |
| LuaChunkFormat.ConstRead | modules/lua/lundump.c:103-125 | Reading tag 0 gives nil, 1 and a byte a boolean, 3 and as many bytes as a number has that number. |
| LuaChunkFormat.TextRead | modules/lua/lundump.c:103-125 | Tag 4, a size, that many bytes less one and a zero are read as a string. |
| LuaChunkFormat.ConstsJoined | modules/lua/ldump.c:80-100 | Constants are written one after the other. |
| LuaChunkFormat.LocVarsJoined | modules/lua/ldump.c:126-133 | Local variables are written one after the other: name, start, end. |
| LuaChunkFormat.NamesJoined | modules/lua/ldump.c:134-136 | Names of upvalues are written one after the other. |
| LuaChunkFormat.FlatAt | modules/lua/ldump.c:55-59 | Words of one size lie one after the other. |
| LuaChunkFormat.UpvalsAt | modules/lua/ldump.c:109-118 | Upvalue i is the bytes 2i and 2i + 1 of its list. |
| LuaChunkFormat.FrontLayout | modules/lua/ldump.c:139-147 | The fields of a function up to its constants, in their order. |
| LuaChunkFormat.DebugLayout | modules/lua/ldump.c:120-137 | The debug information in its order; stripped, no string and three zero counts. |
| LuaChunkFormat.FunctionLayout | modules/lua/ldump.c:139-150 | All parts of a function in their order. |
| LuaChunkFormat.FrontOffsets | modules/lua/ldump.c:139-147 | The places of the first fields, counted in bytes. |
| LuaChunkFormat.InnerOrder | modules/lua/ldump.c:101-103 | Inner functions follow in their order. |
| LuaChunkFormat.ChunkStart | modules/lua/lundump.c:244-258 | A chunk starts with 1B 4C 75 61 52 00, the six bytes about the host and 19 93 0D 0A 1A 0A. |
| LuaChunkFormat.HeaderErrors | modules/lua/lundump.c:190-203 | Which error a wrong header is depends on its first wrong byte: 1 to 3, 4 and 5, 6 to 11, or the tail. |
| LuaChunkFormat.StrippedKeeps | modules/lua/ldump.c:120-137 | Stripping takes the debug information and nothing else. |
| LuaChunkCut.FunctionCut | modules/lua/lundump.c:171-182 | Reading a function depends only on the bytes read: from a beginning of them the same function, or it is found truncated. |
| LuaChunkCut.ReadCut | modules/lua/lundump.c:190-233 | Whatever the bytes are: if they start with a chunk, any beginning of them that has not all of it is refused as truncated, and any other gives the same function. |
| LuaChunkCut.ChunkCut | modules/lua/lundump.c:190-233 | Every proper beginning of a dumped chunk is refused as truncated. |

## Left out

Garbage collector:

- Weak values, fully weak tables and clearing of dead entries; weak keys are modelled in `LuaGcEphemeron` alone, over a heap of its own, inside the atomic phase.
- Finalizers, generational mode and emergency collections.
- The collector's debt and work counts, which decide only how many steps are made at a time.
- Shrinking of stacks, and the part of a stack above its top, which the collector clears.
- Dead keys left in tables by `removeentry`.
- Contents of strings and how they are hashed: a string has any hash. Freeing the concatenation buffer at the end of a cycle.
- An allocation of a larger string table that fails.
- A coroutine that yields always hands over to the main thread.

Code generator:

- Upvalues, globals, indexing, calls, arithmetic, concatenation and constant folding; `goto`, labels and `break`, with their forms of `if`; `for` loops, local declarations and functions. Most add further kinds of expression descriptor, not further jump lists.
- The packing of instruction fields into words (modules/lua/lopcodes.h): instructions are records.
- Line information, and limits on code size and number of constants. Registers are a precondition: what the expression needs fits.
- Metamethods: how two values compare is left open, as any function of the operation and the values.

FatFs:

- Disk errors: reads and writes succeed, so no operation sets the error flag of a file; one whose flag is set is refused.
- Volumes whose boot sector describes areas that do not fit the drive, or a table too small for its clusters: mounting accepts them unchecked, here they are outside `Volume.Ok`.
- Mounting, formatting, paths, short names, `f_open` and `f_sync`: a file starts from its first cluster, its size and its chain.
- Several open files at once appear only through what an operation leaves alone: all other chains and all sectors outside the file.
- The bytes a file gains by seeking past its end, which the code does not define.
- `FatFile.Fil.Seek`: masking with the cluster size is rounding down to a multiple of it, which is the same for the powers of two that occur.

Tables, strings and patterns:

- Table overflow: the array part has at most 2^30 places and there are nodes enough.
- `luaH_resizearray`, which asks for no more nodes than there were.
- Barriers of table writes, which belong to the collector.
- `LuaStrings.StringTable.Resize`: finishing the sweep of strings first, which is in `LuaGcCollector.Collector.Resize`, and old bits.
- `luaS_hash`: any function of the contents.
- Pushing of captures, `gmatch`, `gsub` and plain search.
- Character classes: any locale.

Sorting and chunks:

- Comparisons that raise errors or change the list.
- Bytes of numbers and instructions are taken as they lie in memory, on a little-endian host.
- Memory limits on the sizes a chunk asks for.
- What follows a write behind an array or below a buffer, which ends a model at that point.
- An unknown type tag of a constant gives nil, as with assertions off.
