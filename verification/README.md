# Verification of HermiTux's Lua and streamcluster

This project models the hardest parts of two of the programs that HermiTux runs: the Lua
5.3.5 interpreter (`apps/lua`) and PARSEC's streamcluster with its barrier
(`apps/edge-streamcluster`), and proves what they promise. `dafny verify dfyconfig.toml`
checks everything. The modules are independent groups:

* **Code generator** (`LuaOpcodes`, `LuaFlow`, `LuaExprSpec`, `LuaEmit`, `LuaExpr*`,
  `LuaCode`). `LuaCode.FuncState` emits code in place: jump lists are threaded through the
  instructions' own offsets, jumps to the next instruction are put off, TESTSETs become
  TESTs, a NOT is taken back, LOADNILs are merged. The meaning of the target is a machine
  for the opcodes used, the meaning of the source a small evaluator. The result is compiler
  correctness for all expressions over nil, booleans, integers, locals, comparisons, `not`,
  `and` and `or`; what is emitted fits the fields of 32-bit instructions.
* **Garbage collector** (`GcHeap`, `GcProofs`, `GcMutator`, `GcWeak`, `Gc`). `Gc.Collector`
  has the collector's lists and phases, `singlestep`, `luaC_fullgc`, and the mutator's
  writes and allocations with their barriers. A ghost set says what the current cycle is to
  keep. Safety holds in every interleaving, because every operation keeps one invariant,
  phase by phase; completeness is exact: a full collection leaves the reachable objects and
  no others. "Accessible" is weaker than "reachable": it counts the keys that a program
  finds by iterating over a weak table.
* **Tables** (`TableChains`, `TableSizes`, `TableCount`, `TableSpec`, `Table`). The hash is
  any function of key and size. The ghost sequence `ord` lists the nodes in use, chain by
  chain. The table refines a map; resizing keeps it. An integer and the float that equals it
  are one key.
* **Facility location** (`FacilitySpec`, `FacilityBlocks`, `Facility`, `FacilityMedian`).
  Costs are exact reals. Between two barriers the threads run one after the other, in any
  order; their blocks do not overlap, and what a block needs and leaves is stated for its
  own part of the arrays and for the solution at the start of the phase. Random numbers,
  shuffles and the number of iterations are parameters.
* **Barrier** (`Barrier`). Threads take steps in any order; each access to the shared flag,
  the polling loops without the mutex included, is a step of its own. Wakeups may be
  spurious. The history of each round is part of the state.
* **Patterns** (`LuaPattern`, `LuaPatternText`, `LuaSearch`, `LuaMatch`). A match is given
  by how often each repeated item is used; the best choice in the order of preference is the
  one to find. The matcher with its captures, undone when it backtracks, finds exactly that
  one.
* **Closures** (`LuaUpvals`). Ghost state says which variable each slot and each upvalue
  stands for, and what it holds. Capturing, writing, closing and moving the stack keep that
  picture.
* **Precompiled chunks** (`LuaChunk`, `LuaChunkBytes`, `LuaDump`, `LuaUndump`) and
  **string.pack** (`LuaPackInt`, `LuaPack`, `LuaLayout`, `LuaPackRun`). What is written is
  read back, with the exact exceptions; the loops that write and read agree with definitions
  of the bytes.
* **Parser** (`LuaSubexpr`, `LuaPrecedence`), **quicksort** (`LuaSort`) and **quoted
  strings** (`LuaQuote`). Each is an imperative model proved against a declarative
  definition.

`Arithmetic` has a few lemmas about quotients. Errors that the C code raises with `longjmp`
are results of methods. Integers are unbounded except where wrap-around matters:
`computesizes` doubles an unsigned 32-bit number.

Where code and comments disagree, the model follows the code:

* `luaO_ceillog2` (apps/lua/lobject.c:66) says its table holds ceil(log2(i - 1)); it holds
  ceil(log2(i + 1)) (`TableSizes.Log2TableOK`).
* Undumping a dumped function does not always give the same function: a function without a
  source inside one that has one gets it (`LuaChunk.SourceGained`); `LuaChunk.RoundTrip` has
  the exact condition.
* `pkmedian` (apps/edge-streamcluster/streamcluster.cpp:1531-1542) hands out the number of
  centers of an earlier call when there are no more points than `kmax`
  (`FacilityMedian.FirstCallFewPoints`); `FacilityMedian.Pkmedian` says when it is right.

## Model

| member | source | states |
|---|---|---|
| LuaCode.CompileReturn | apps/lua/lcode.c:675-1171 | For every expression of nil, booleans, integers, locals, comparisons, `not`, `and`, `or`, and every content of the registers: running the emitted code returns the value of the source expression and leaves all active locals as they were, or raises an error exactly when the source expression has no value. Compilation succeeds whenever the registers that the expression takes stay below 255 and its nodes are few enough for the offsets of jumps. Every instruction of the code fits its 32 bits and comes back when they are decoded; its operands are registers, or constants that there are |
| LuaCode.FuncState.Expression | apps/lua/lcode.c:1066-1171 | The calls of the parser to the code generator leave a description whose jumps and code deliver exactly the value of the expression, in every context; it fails only without room for registers, constants or jumps, and adds a bounded amount of code |
| LuaCode.FuncState.FixJump | apps/lua/lcode.c:103-110 | Links or targets a jump and nothing else; fails just when the offset does not fit |
| LuaCode.FuncState.Concat | apps/lua/lcode.c:116-127 | The joined list is the first one followed by the second one; the code runs as before |
| LuaCode.FuncState.PatchTestReg | apps/lua/lcode.c:195-207 | A TESTSET gets its register, or becomes a TEST when its value is not wanted; other instructions stay, and the answer says whether it was a TESTSET |
| LuaCode.FuncState.RemoveValues | apps/lua/lcode.c:213-216 | Every jump of the list stops carrying a value; all other code is the same |
| LuaCode.FuncState.PatchListAux | apps/lua/lcode.c:224-234 | Jumps that carry a value go to one target and get the register, the others go to the other target |
| LuaCode.FuncState.DischargeJpc | apps/lua/lcode.c:242-245 | The jumps to here are patched and no run of the code changes |
| LuaCode.FuncState.Code | apps/lua/lcode.c:293-305 | One more instruction at the end; what reached the end before goes on with it |
| LuaCode.FuncState.Jump | apps/lua/lcode.c:136-143 | A pending jump that takes the jumps to here along |
| LuaCode.FuncState.CondJump | apps/lua/lcode.c:158-161 | A test and the pending jump that it controls |
| LuaCode.FuncState.LoadNils | apps/lua/lcode.c:64-83 | Merges with the previous LOADNIL just when the ranges connect and no jump lands in between, and emits one otherwise |
| LuaCode.FuncState.CloseCondition | apps/lua/lcode.c:857-904 | The new jump joins the list of those that leave, and the other list goes to here: the code goes on only for the wanted truth value |
| LuaCode.FuncState.Discharge2Reg | apps/lua/lcode.c:595-635 | The value, but for its jumps, is in the register |
| LuaCode.FuncState.PrepareLoads | apps/lua/lcode.c:677-689 | Jumps that carry no value get a load of true or false to go to |
| LuaCode.FuncState.Exp2Reg | apps/lua/lcode.c:675-696 | The value, jumps included, is in the register, and control comes out at the end |
| LuaCode.FuncState.Exp2NextReg | apps/lua/lcode.c:703-708 | As before, in the next free register, which is reserved |
| LuaCode.FuncState.Exp2AnyReg | apps/lua/lcode.c:715-727 | The value is in some register, without moving it when it already is in one |
| LuaCode.FuncState.Exp2Val | apps/lua/lcode.c:744-749 | The value is in a register or is a constant |
| LuaCode.FuncState.Exp2RK | apps/lua/lcode.c:758-776 | The value is an operand: a register, or a constant whose index fits next to the top bit of nine |
| LuaCode.FuncState.SwapLists | apps/lua/lcode.c:936-938 | Exchanged lists, without their values, describe the negation |
| LuaCode.FuncState.JumpOnCond | apps/lua/lcode.c:839-851 | A jump taken just when the value is the condition, with a NOT folded into the test |
| LuaCode.FuncState.GoIfTrue | apps/lua/lcode.c:857-878 | Falls through when the value is true, leaves through the false list otherwise |
| LuaCode.FuncState.GoIfFalse | apps/lua/lcode.c:884-904 | Falls through when the value is false, leaves through the true list otherwise |
| LuaCode.FuncState.CodeNot | apps/lua/lcode.c:910-939 | The description stands for the negation; the lists are exchanged without their values |
| LuaCode.FuncState.CodeComp | apps/lua/lcode.c:1037-1060 | A comparison of the two operands, with > and >= turned around |
| LuaCode.FuncState.Infix | apps/lua/lcode.c:1086-1115 | The first operand is ready for its operator before the second one is read |
| LuaCode.FuncState.Prefix | apps/lua/lcode.c:1066-1079 | `not` of the operand |
| LuaCode.FuncState.Posfix | apps/lua/lcode.c:1124-1171 | The operator applied to both operands: short circuits and comparisons |
| LuaFlow.PatchRun | apps/lua/lcode.c:224-234 | Patching a jump list redirects exactly the exits through its jumps, and changes no other run |
| LuaFlow.SilenceRun | apps/lua/lcode.c:195-207 | Turning TESTSETs whose destination is still pending into TESTs changes no run |
| LuaFlow.RelinkRun | apps/lua/lcode.c:116-127 | Linking jump lists through the instructions themselves changes no run |
| LuaEmit.EmittedRun | apps/lua/lcode.c:293-305 | Runs that reached the end go on with the appended instructions, all other runs are the same |
| LuaEmit.DischargedRun | apps/lua/lcode.c:242-245 | Patching the jumps to here to the next instruction changes no run |
| LuaExprProofs.PatchTail | apps/lua/lcode.c:90-96 | The link of the first jump of a list leads to the rest of it, whatever became of other instructions |
| LuaExprOps.VarsDesc | apps/lua/lcode.c:556-588 | A description that is no variable any more stands for the same value in every context |
| LuaExprOps.MergedSets | apps/lua/lcode.c:64-83 | A merged LOADNIL sets the registers of both |
| LuaExprLogic.TestForks | apps/lua/lcode.c:825-878 | Once the condition is negated, or not, the pending comparison jumps just on the truth value that is not wanted |
| LuaExprCombine.NotTest | apps/lua/lcode.c:825-830 | The negated comparison holds just when it did not before |
| LuaExprOps.NilPlaces | apps/lua/lcode.c:64-83 | A merged LOADNIL puts nil in place |
| LuaExprOps.RelocPlaces | apps/lua/lcode.c:600-607 | Giving a relocatable instruction its destination puts the value in place |
| LuaExprEnd.EndDesc | apps/lua/lcode.c:677-695 | Patching both lists to the end and to the loads delivers the value in the register on every path |
| LuaExprLogic.CondForks | apps/lua/lcode.c:857-904 | After a test and its jump, control falls through or leaves according to the truth of the value |
| LuaExprLogic.BothDeliv | apps/lua/lcode.c:1127-1140 | What a first operand that may leave and a second operand deliver together |
| LuaExprCombine.BothDesc | apps/lua/lcode.c:1127-1140 | Joining the lists of both operands describes the short-circuit expression |
| LuaExprCombine.CompDesc | apps/lua/lcode.c:1037-1060 | A test with its jump describes the comparison of the operands |
| LuaExprCombine.NegatedDesc | apps/lua/lcode.c:910-939 | Exchanged lists and an inverted instruction describe the negation |
| LuaExprCombine.ExecRun | apps/lua/lopcodes.h:171-214 | The stepwise machine agrees with the meaning of code that the proofs compose |
| LuaExprCombine.ReturnsValue | apps/lua/lcode.c:149-151 | An expression finished in a register and returned yields its value |
| Gc.Collector.FullGc | apps/lua/lgc.c:1159-1175 | In every phase: a full collection leaves exactly the objects that were reachable when it began. It changes nothing about them but that an ephemeron loses entries, only those whose key is an object that is gone; the entries of an ephemeron whose key is not collectable, or a string, or an object that is left, stay, with their values |
| Gc.Collector.SingleStep | apps/lua/lgc.c:1045-1097 | In every phase a step keeps the invariant, frees only unreachable objects, changes nothing the program sees but entries with dead keys, and makes progress |
| Gc.Collector.AccessibleLive | apps/lua/lgc.c:735-752 | In every interleaving of mutator and collector, whatever the program can get at is there and not dead |
| Gc.Collector.AtomicPhase | apps/lua/lgc.c:982-1026 | The marked objects become exactly the least closed set over the marked ones, the roots and the running thread; exactly the entries with unmarked keys leave the marked ephemerons |
| Gc.Collector.ReallyMarkObject | apps/lua/lgc.c:235-283 | A white object is marked, black if it is finished and else on the gray list; black ones refer to marked objects only |
| Gc.Collector.MarkAll | apps/lua/lgc.c:433-448 | All values are marked; says whether one was white |
| Gc.Collector.TraverseStrongTable | apps/lua/lgc.c:433-448 | All that the table refers to is marked |
| Gc.Collector.TraverseFunction | apps/lua/lgc.c:479-527 | All that the function or prototype refers to is marked, closed upvalues included |
| Gc.Collector.TraverseThread | apps/lua/lgc.c:530-552 | All values of the stack are marked |
| Gc.Collector.IsCleared | apps/lua/lgc.c:139-146 | True just for keys that are objects other than strings and are not marked; strings get marked |
| Gc.Collector.TraverseEphemeron | apps/lua/lgc.c:394-430 | Values of live keys are marked, and the table is linked where what is left to do says |
| Gc.Collector.PropagateMark | apps/lua/lgc.c:559-600 | One gray object is visited; the three-colour invariant and the gray lists stay right; either something is marked or the list gets shorter |
| Gc.Collector.PropagateAll | apps/lua/lgc.c:603-605 | Ends with an empty gray list and the invariant |
| Gc.Collector.ConvergePass | apps/lua/lgc.c:610-621 | A pass marks something, or leaves every waiting ephemeron in order |
| Gc.Collector.ConvergeEphemerons | apps/lua/lgc.c:608-623 | Terminates, with the set of white objects as measure, and leaves no entry with a marked key and an unmarked value |
| Gc.Collector.AllMarked | apps/lua/lgc.c:1002-1004 | When it has converged, the marked objects are exactly the least closed set |
| Gc.Collector.MarkRoots | apps/lua/lgc.c:991-994 | Roots and the running thread are marked, whatever the program did to them |
| Gc.Collector.ClearKeys | apps/lua/lgc.c:639-651 | Exactly the entries with dead keys are removed |
| Gc.Collector.MarkTheRest | apps/lua/lgc.c:986-1002 | Everything reachable is marked, and nothing else |
| Gc.Collector.BarrierBack | apps/lua/lgc.c:171-176 | A black table with a white new value or key is gray and listed again: the invariant holds |
| Gc.Collector.Barrier | apps/lua/lgc.c:155-164 | The new value is marked, or in a sweep phase the object whitened: the invariant holds |
| Gc.Collector.WriteSlot | apps/lua/lgc.c:155-176 | Writing a stack slot, array slot, metatable, constant or upvalue with its barrier keeps the invariant of every phase |
| Gc.Collector.PutEntry | apps/lua/lgc.c:171-176 | Writing a table node, watched for its key and for its value, keeps the invariant of every phase |
| Gc.Collector.RemoveEntry | apps/lua/lgc.c:639-651 | Assigning nil needs no barrier |
| Gc.Collector.WriteUpvalue | apps/lua/lgc.c:185-191 | Writing a closed upvalue shared by any number of black functions keeps the invariant of every phase |
| Gc.Collector.SetRoot | apps/lua/lgc.c:992-994 | Roots may be written without a barrier at any time |
| Gc.Collector.New | apps/lua/lgc.c:208-216 | A new object is white, linked where the sweep finds it or need not, and the invariant of every phase holds |
| Gc.Collector.SweepOne | apps/lua/lgc.c:740-750 | A dead object is freed, a live one whitened; what is reachable stays the same |
| Gc.Collector.SweepList | apps/lua/lgc.c:735-752 | Frees dead objects only, and whitens the others |
| Gc.Collector.EnterSweep | apps/lua/lgc.c:959-964 | Sweeping may begin: whatever is not alive is dead |
| Gc.Collector.SweepNothing | apps/lua/lgc.c:1163-1165 | Sweeping in the middle of marking frees nothing that is reachable, and keeps all objects alive |
| Gc.Collector.SweepStep | apps/lua/lgc.c:1029-1042 | A step of the sweep, or the next phase when nothing is left |
| Gc.Collector.FinishSweep | apps/lua/lgc.c:1079-1084 | All objects left are white and alive |
| Gc.Collector.RestartCollection | apps/lua/lgc.c:337-344 | A cycle begins, for what is reachable now, with something gray |
| Gc.Collector.PropagateStep | apps/lua/lgc.c:1054-1061 | The gray list is not empty while in this state |
| Gc.Collector.AtomicStep | apps/lua/lgc.c:1062-1069 | From marking to sweeping in one step |
| Gc.Collector.RunTilState | apps/lua/lgc.c:1104-1108 | Terminates in the wanted state |
| Gc.Collector.NothingElseLeft | apps/lua/lgc.c:1085-1094 | At the end of a cycle exactly the objects it was to keep are left |
| Gc.Collector.WriteKeepsAlive | apps/lua/lgc.c:155-191 | A write of reachable values makes the cycle keep no more |
| Gc.Collector.NewCell | apps/lua/lfunc.c:45-54 | A new closed upvalue disturbs nothing |
| Gc.Collector.NoBlackToWhite | apps/lua/lgc.h:14-24 | While the invariant is kept, no black object points to a white one |
| Gc.Collector.GrayIsListed | apps/lua/lgc.h:14-24 | An object is gray just when it is on a gray list, and it is there once |
| Gc.Collector.constructor | apps/lua/lstate.c:295-338 | A new state satisfies the invariant |
| GcHeap.ClosureClosed | apps/lua/lgc.c:394-430 | There is a least set that holds what is reachable, ephemeron entries included |
| GcHeap.ReachableAccessible | apps/lua/lgc.c:139-146 | What is reachable the program can get at |
| GcProofs.MarkedClosed | apps/lua/lgc.c:1002-1004 | With nothing gray left to visit, the marked objects are closed under references |
| GcProofs.AliveIntact | apps/lua/lgc.c:1017-1018 | After clearing, no live object mentions a dead one |
| GcProofs.EphemeronVisited | apps/lua/lgc.c:423-429 | A traversed ephemeron is covered by the list it was linked to |
| GcMutator.FreeReachable | apps/lua/lgc.c:743-746 | Freeing a dead object changes nothing about what is reachable |
| GcMutator.CellDone | apps/lua/lgc.c:185-191 | Once the value is marked, every black function that shares the upvalue is right |
| LuaTable.Table.Assign | apps/lua/ltable.c:461-629 | Every assignment does to the map exactly what it should, or fails and leaves the map as it was; it fails just for nil and NaN keys, or when the keys outside the best array part need more than 2^30 nodes, which takes at least 2^30 keys. Afterwards the value is found under every form of the key, an integer or the float that equals it, and all other keys have the values they had |
| LuaTable.Table.Access | apps/lua/ltable.c:589-603 | Every access gives what the map holds under the key, be it there as an integer or asked for as the float that equals it; nil when no such key is there |
| LuaTable.Table.AssignInPlace | apps/lua/ltable.c:461-510 | With a free node, or for a key of the array part, an assignment reallocates nothing: a rehash never nests a second one |
| LuaTable.Table.GetGeneric | apps/lua/ltable.c:560-572 | Finds the node that holds the key, and gives up just when no node does |
| LuaTable.Table.GetInt | apps/lua/ltable.c:516-533 | The array slot or node of an integer key, or neither |
| LuaTable.Table.Get | apps/lua/ltable.c:589-603 | The place of any key, floats with integral values included |
| LuaTable.Table.Set | apps/lua/ltable.c:610-615 | A place for the key; no value of any key changes; overflow only when too many keys are left for the hash part |
| LuaTable.Table.NewKey | apps/lua/ltable.c:461-510 | A place for a new key, by reuse, chaining, moving or rehash; no value of any key changes; overflow only when too many keys are left for the hash part |
| LuaTable.Table.GetFreePos | apps/lua/ltable.c:441-450 | Fails just when every node holds a key |
| LuaTable.Table.TakeMain | apps/lua/ltable.c:505-509 | A free or dead main position takes the new key over |
| LuaTable.Table.ChainFree | apps/lua/ltable.c:497-504 | The new key becomes second in the chain of the colliding node |
| LuaTable.Table.FindPrevious | apps/lua/ltable.c:486-488 | Ends, at the node whose link leads to the colliding node |
| LuaTable.Table.MoveColliding | apps/lua/ltable.c:485-496 | The colliding node moves, its chain with it, and the new key gets its main position |
| LuaTable.Table.Resize | apps/lua/ltable.c:347-384 | The map stays the same for all sizes that hold it; on overflow nothing changes |
| LuaTable.Table.Rehash | apps/lua/ltable.c:395-412 | Afterwards the extra key has room, and the array part has the best size; it fails only when the keys left for the hash part need more than 2^30 nodes |
| LuaTable.Table.RefillArray | apps/lua/ltable.c:363-372 | All keys of the vanishing slice are in the table again, without a rehash |
| LuaTable.Table.RefillNodes | apps/lua/ltable.c:373-381 | All keys of the old nodes are in the table again, without a rehash |
| LuaTable.Table.FindIndex | apps/lua/ltable.c:159-183 | The position of a key, or an error just when it has none. A float with an integral value has the position of that integer if and only if its node lies on the chain from the main position of the float itself on, and array indices never |
| LuaTable.Table.FindOnChain | apps/lua/ltable.c:166-182 | The walk along the chain from the main position of the key finds the node that is equal to it as a number, or ends without one |
| LuaTable.Table.Next | apps/lua/ltable.c:186-203 | The first entry after a key, or nil when there is none; an error just for keys without a position |
| LuaTable.Table.PositionsAreEntries | apps/lua/ltable.c:186-203 | Every entry of the map has exactly one position: a traversal meets each once |
| LuaTable.Table.GetN | apps/lua/ltable.c:660-676 | A border of the table, in the array part or beyond |
| LuaTable.Table.UnboundSearch | apps/lua/ltable.c:632-653 | A border in the hash part, with the guard against overflow |
| LuaTable.Table.LinearSearch | apps/lua/ltable.c:638-642 | Terminates at a border |
| LuaTable.Table.constructor | apps/lua/ltable.c:421-430 | A new table is the empty map |
| TableSpec.RawEqualNorm | apps/lua/lvm.c:407-450 | The key of a node is equal to a key just when it is what that key is normalized to |
| TableChains.ReuseFree | apps/lua/ltable.c:505-509 | Chains, main positions and distinct keys survive taking a free node |
| TableChains.ReuseDead | apps/lua/ltable.c:475-509 | They survive overwriting a dead key in place, links included |
| TableChains.ChainOK | apps/lua/ltable.c:497-504 | They survive chaining a new node |
| TableChains.MoveOK | apps/lua/ltable.c:485-496 | They survive moving an out-of-place node |
| TableChains.StartAhead | apps/lua/ltable.c:560-572 | A stored key lies on the chain of its main position |
| TableChains.EndOfChain | apps/lua/ltable.c:560-572 | At the end of the chain without the key, no node holds it |
| TableChains.FreeMain | apps/lua/ltable.c:560-572 | If the main position of a key is free, no node holds it |
| TableSpec.FullWhen | apps/lua/ltable.c:441-450 | As many nodes are in use as there are just when none is free |
| TableSpec.RehashFits | apps/lua/ltable.c:395-412 | The sizes computed leave room for all keys and the extra one |
| TableSpec.RehashFacts | apps/lua/ltable.c:395-412 | The counts are those of the keys, each counted once |
| TableSpec.MoveValues | apps/lua/ltable.c:485-496 | Moving a node changes no value |
| TableSpec.MapAssigned | apps/lua/ltable.c:610-629 | Writing one place is an update of the map |
| TableSpec.ChainHas | apps/lua/ltable.c:166-182 | A normalized key is on the chain from its main position on just when some node holds it |
| TableSpec.FloatFound | apps/lua/ltable.c:166-182 | With one node, 5.0 leads to the entry of 5, whatever the hash |
| TableSpec.FloatMissed | apps/lua/ltable.c:166-182 | With two nodes and main positions that differ, 5.0 leads to none |
| TableSizes.ComputeSizes | apps/lua/ltable.c:219-240 | The largest power of two with more than half of its indices in use, or 0, and the exact number of keys up to it, despite early exit, skipped slices and wrap-around |
| TableSizes.Log2TableOK | apps/lua/lobject.c:65-80 | The table holds the rounded-up logarithm of i + 1 |
| TableSizes.CeilLog2 | apps/lua/lobject.c:65-80 | The logarithm to base two, rounded up |
| TableSizes.CountOneMore | apps/lua/ltable.c:243-251 | A key counts in the slice of its logarithm and in no other |
| TableCount.NumUseArray | apps/lua/ltable.c:259-282 | The counts, slice by slice, of the indices in use, and their number |
| TableCount.NumUseHash | apps/lua/ltable.c:285-298 | The counts of integer keys of the nodes are added; all keys are counted |
| Facility.Search.Pgain | apps/edge-streamcluster/streamcluster.cpp:960-1169 | For any number of threads in any order between barriers: the gain is not negative and is exactly what z * centers + costs drops by; every center serves itself; the number of centers is right; nothing changes when there is no gain. No other way to open x, to close centers and to let each point stay or go to x would lead to a lower total |
| Facility.Search.CountCenters | apps/edge-streamcluster/streamcluster.cpp:1007-1013 | The centers of a block, numbered from its start |
| Facility.Search.PrefixPhase | apps/edge-streamcluster/streamcluster.cpp:1019-1026 | Counts become offsets |
| Facility.Search.IndexPhase | apps/edge-streamcluster/streamcluster.cpp:1032-1041 | All centers are numbered in order, whatever the order of the threads; working memory is clear |
| Facility.Search.GainBlock | apps/edge-streamcluster/streamcluster.cpp:1047-1078 | Which points switch, and the sums for their centers |
| Facility.Search.Aggregate | apps/edge-streamcluster/streamcluster.cpp:1089-1093 | The savings for a center, over all threads |
| Facility.Search.CloseBlock | apps/edge-streamcluster/streamcluster.cpp:1087-1107 | What closing each center of the block saves, and how many close |
| Facility.Search.AddUp | apps/edge-streamcluster/streamcluster.cpp:1114-1121 | The change of the total, and the number of centers that close |
| Facility.Search.ApplyPhase | apps/edge-streamcluster/streamcluster.cpp:1128-1151 | Exactly the points that switch or lose their center move to x |
| Facility.Search.Evaluate | apps/edge-streamcluster/streamcluster.cpp:1007-1121 | From the table of centers to the decision |
| Facility.Search.constructor | apps/edge-streamcluster/streamcluster.cpp:2027-2029 | The shared arrays and the blocks of the threads are as all phases need them |
| FacilitySpec.OpenedTotal | apps/edge-streamcluster/streamcluster.cpp:1128-1151 | Opening x changes the total by exactly the computed amount, and the number of centers by the computed number |
| FacilitySpec.OpenedSolution | apps/edge-streamcluster/streamcluster.cpp:1128-1151 | After opening x every point is served by a center and every center by itself, also when x is a center or coincides with one |
| FacilitySpec.SamePlaceCloses | apps/edge-streamcluster/streamcluster.cpp:1063-1097 | A center at the place of x closes, for z > 0 |
| FacilitySpec.GridByClient | apps/edge-streamcluster/streamcluster.cpp:1064-1077 | Summing savings by center or by client is the same |
| FacilitySpec.DistZero | apps/edge-streamcluster/streamcluster.cpp:656-663 | Points at distance 0 are at the same distance from everything |
| FacilityMedian.Pspeedy | apps/edge-streamcluster/streamcluster.cpp:711-837 | The cost returned is z * centers + costs of a solution in which every point is served by the nearest center |
| FacilityMedian.RelaxPhase | apps/edge-streamcluster/streamcluster.cpp:756-791 | Opening a center serves exactly the points that are closer to it, whatever the order of the threads |
| FacilityMedian.RelaxedNearest | apps/edge-streamcluster/streamcluster.cpp:756-791 | A center opened where the cost is not zero gives one more center, and the nearest-center solution |
| FacilityMedian.PFL | apps/edge-streamcluster/streamcluster.cpp:1215-1251 | The cost carried along stays z * centers + costs, and does not grow; for e > 0 the loop ends, when a round brings no more than the share e of the cost |
| FacilityMedian.Round | apps/edge-streamcluster/streamcluster.cpp:1240-1246 | The change added up is the drop of the total |
| FacilityMedian.FlagCenters | apps/edge-streamcluster/streamcluster.cpp:1569-1573 | The flags set are those of the centers opened |
| FacilityMedian.PriceChange | apps/edge-streamcluster/streamcluster.cpp:1595-1606 | Changing z changes the total by the change times the number of centers |
| FacilityMedian.Turn | apps/edge-streamcluster/streamcluster.cpp:1580-1607 | The cost is the total for the new z, too. Too many centers raise the price and make it the lower bound, too few lower it and make it the upper bound; the new price is half-way between the bounds, which never move apart |
| FacilityMedian.Pkmedian | apps/edge-streamcluster/streamcluster.cpp:1486-1625 | With more points than kmax the cost is z * centers + costs of a solution, and a search that is done has a number of centers from kmin to kmax or prices that have met; for kmin <= kmax the lower price is 0 or one at which too many centers were found, the upper one the first or one at which too few were. Otherwise every point serves itself and the price of the centers is left out of the cost. The count handed out is the number of centers if and only if there are more points than kmax or the count of the earlier call equals the number of points |
| FacilityMedian.FirstCallFewPoints | apps/edge-streamcluster/streamcluster.cpp:1531-1542 | A first call with no more points than kmax reports no centers |
| FacilityMedian.AloneSolution | apps/edge-streamcluster/streamcluster.cpp:1531-1542 | Every point for itself is a solution with all points as centers, whose total is their price |
| FacilityMedian.TotalAtLeast | apps/edge-streamcluster/streamcluster.cpp:1215-1251 | No solution costs less than one center |
| FacilityMedian.ManyPoints | apps/edge-streamcluster/streamcluster.cpp:1546-1619 | From the first solution to the last the cost is z * centers + costs; a search that is done has a number of centers from kmin to kmax, or prices that have met. For kmin <= kmax the lower price is 0 or one at which more than kmax centers were found, the upper one is the first or one at which fewer than kmin were |
| FacilityMedian.SumCosts | apps/edge-streamcluster/streamcluster.cpp:813-831 | The threads' sums add up to the sum of all costs |
| FacilityBlocks.AllBlocks | apps/edge-streamcluster/streamcluster.cpp:967-971 | The blocks of the threads |
| FacilityBlocks.BlockOf | apps/edge-streamcluster/streamcluster.cpp:967-971 | Every point is in the block of some thread |
| Barrier.NoEarlyReturn | apps/edge-streamcluster/parsec_barrier.cpp:127-208 | In every run of any number of threads, no call is on its way out, or has returned, before max threads have come to its round; blocking and spinning |
| Barrier.OneSerial | apps/edge-streamcluster/parsec_barrier.cpp:166-207 | In a round different threads return, never two with the serial value, and exactly one once all have returned |
| Barrier.NCounts | apps/edge-streamcluster/parsec_barrier.cpp:166-203 | n is the number of threads that have come and not left, and at most max |
| Barrier.NoLostWakeup | apps/edge-streamcluster/parsec_barrier.cpp:135-198 | No thread sleeps on a condition that already holds |
| Barrier.NotStuck | apps/edge-streamcluster/parsec_barrier.cpp:127-208 | If no call can go on, the phase is arrival with fewer than max threads, and all calls sleep |
| Barrier.StepInv | apps/edge-streamcluster/parsec_barrier.cpp:127-208 | Every step of every thread keeps the invariant |
| Barrier.RunInv | apps/edge-streamcluster/parsec_barrier.cpp:127-208 | The invariant holds throughout every run |
| Barrier.InitInv | apps/edge-streamcluster/parsec_barrier.cpp:50-79 | It holds of a new barrier |
| Barrier.LastLeftStep | apps/edge-streamcluster/parsec_barrier.cpp:199-204 | The last thread to leave starts a new round that nobody of the old one is in |
| Barrier.FullStep | apps/edge-streamcluster/parsec_barrier.cpp:169-173 | The last thread to arrive wakes all sleepers |
| LuaSubexpr.RoundTrip | apps/lua/lparser.c:1025-1075 | Printing any tree with only the parentheses its priorities force and parsing it gives the tree back |
| LuaSubexpr.ParsesIff | apps/lua/lparser.c:1048-1075 | The parser reads exactly the texts that have all the parentheses they need, and reads them as written |
| LuaSubexpr.WriteShortest | apps/lua/lparser.c:1025-1041 | No text that parses to the same tree has fewer tokens than the printed one |
| LuaSubexpr.ParenthesesForced | apps/lua/lparser.c:1048-1075 | A text that lacks a parenthesis is not read as itself |
| LuaSubexpr.TextRead | apps/lua/lparser.c:1048-1075 | A text is read whole and reading stops before what does not belong to it |
| LuaSubexpr.SubReads | apps/lua/lparser.c:1048-1075 | What is read is well written, above the limit, and what follows does not belong to it |
| LuaSubexpr.LexState.ReadSubExpr | apps/lua/lparser.c:1048-1075 | The loop and its recursive calls read the text that the functions of LuaPrecedence.BinaryLaw, UnaryLaw and MixedLaw are about, and return the next operator |
| LuaSubexpr.LexState.ReadSimple | apps/lua/lparser.c:931-983 | Atoms and expressions in parentheses |
| LuaSubexpr.ReadBack | apps/lua/lparser.c:1048-1083 | The parser run on the printed tree |
| LuaSort.Sorter.AuxSort | apps/lua/ltablib.c:357-408 | With a strict weak order: a sorted permutation. With any comparison: it ends, stays within the interval, keeps the elements, and nests at most log2 of their number deep |
| LuaSort.Sorter.Partition | apps/lua/ltablib.c:310-339 | With a strict weak order it does not fail and the pivot separates the interval; with any comparison it stays within bounds or reports an error |
| LuaSort.Sorter.SearchUp | apps/lua/ltablib.c:315-321 | Stops at the first element not smaller than the pivot, or reports an invalid order |
| LuaSort.Sorter.SearchDown | apps/lua/ltablib.c:322-328 | The same from above, never below the interval |
| LuaSort.Sorter.Divide | apps/lua/ltablib.c:362-393 | One turn: a partition, or at most three elements in order |
| LuaSort.Sorter.ChoosePivot | apps/lua/ltablib.c:346-351 | The pivot is in the second or third quarter |
| LuaSort.Sorter.OuterKept | apps/lua/ltablib.c:395-404 | What was in place around the interval stays in place |
| LuaSort.Sorter.LowerDone | apps/lua/ltablib.c:395-399 | After sorting the lower part, only the upper part is left to sort |
| LuaQuote.AddQuoted | apps/lua/lstrlib.c:908-928 | The quoted form of the string, appended |
| LuaQuote.QuoteAndRead | apps/lua/lstrlib.c:908-928 | For every byte string: writing it with %q and reading it gives the same string, whatever follows |
| LuaQuote.QuotedRead | apps/lua/llex.c:366-426 | Every quoted string is read back whole, and its newlines are counted |
| LuaQuote.DecimalRead | apps/lua/llex.c:353-363 | A decimal escape is read whole, also before digits |
| LuaQuote.NeverNewline | apps/lua/llex.c:391-392 | After an escaped newline comes no raw newline character that would be skipped with it |
| LuaQuote.LexState.ReadString | apps/lua/llex.c:366-426 | The string between the delimiters, or a failure, for every input |
| LuaQuote.LexState.ReadBody | apps/lua/llex.c:366-422 | Every escape sequence, through the lexer buffer |
| LuaQuote.LexState.ReadEscape | apps/lua/llex.c:377-417 | One escape sequence: its bytes replace it in the buffer |
| LuaQuote.LexState.ReadDecEsc | apps/lua/llex.c:353-363 | Up to three digits, at most 255 |
| LuaQuote.LexState.ReadHexEsc | apps/lua/llex.c:319-324 | Two hexadecimal digits |
| LuaQuote.LexState.ReadUtf8Esc | apps/lua/llex.c:327-342 | A code point up to 10FFFF in braces |
| LuaQuote.LexState.ZapSpaces | apps/lua/llex.c:395-403 | The white space after \z, lines counted |
| LuaQuote.LexState.IncLineNumber | apps/lua/llex.c:151-159 | A newline of one or two characters is skipped and counted |
| LuaMatch.MatchState.PushCaptures | apps/lua/lstrlib.c:550-576 | The texts and positions of all captures, or the whole match, or an error just if a capture was not closed |
| LuaMatch.MatchState.Search | apps/lua/lstrlib.c:601-648 | Finds the first place with a match, from a start on or there only, and the best match there; between attempts the depth of recursion is the initial one |
| LuaMatch.MatchState.Match | apps/lua/lstrlib.c:425-524 | For every pattern and string: the best match in the order of preference, the error that the search meets first, or no match; a failure restores level, all captures and matchdepth. Patterns are too complex only if they are at least as long as the depth left |
| LuaMatch.MatchState.MatchItem | apps/lua/lstrlib.c:430-521 | One item of the pattern: what it leads to |
| LuaMatch.MatchState.MatchChars | apps/lua/lstrlib.c:484-520 | A class with its suffix |
| LuaMatch.MatchState.MatchEscape | apps/lua/lstrlib.c:448-482 | Balanced texts, frontiers and back references |
| LuaMatch.MatchState.MaxExpand | apps/lua/lstrlib.c:361-373 | Tries the most repetitions first |
| LuaMatch.MatchState.MinExpand | apps/lua/lstrlib.c:376-386 | Tries the fewest repetitions first |
| LuaMatch.MatchState.StartCapture | apps/lua/lstrlib.c:389-400 | Opens a capture, and takes it back on failure |
| LuaMatch.MatchState.EndCapture | apps/lua/lstrlib.c:403-411 | Closes the last open capture, and opens it again on failure |
| LuaMatch.MatchState.MatchCapture | apps/lua/lstrlib.c:414-422 | The captured text again; a position never matches |
| LuaMatch.MatchState.CaptureToClose | apps/lua/lstrlib.c:250-255 | The last capture still open |
| LuaMatch.MatchBalance | apps/lua/lstrlib.c:341-358 | The shortest text from the opening to the closing character in which the nesting is undone |
| LuaMatch.MatchBracketClass | apps/lua/lstrlib.c:302-322 | A character is in a set just when one of its elements holds it, or none for a complement |
| LuaMatch.FindClassEnd | apps/lua/lstrlib.c:258-279 | Past the class, or the error of a malformed one |
| LuaSearch.SearchIsBest | apps/lua/lstrlib.c:361-524 | Backtracking gives an outcome if and only if it is that of the best choice of repetitions: earlier items first, longest first, shortest for lazy items |
| LuaSearch.BestIsOne | apps/lua/lstrlib.c:361-524 | There is only one best outcome |
| LuaSearch.CharsChosen | apps/lua/lstrlib.c:361-386 | How far a repeated item goes: nothing that is preferred leads to a match |
| LuaSearch.BalancedOnce | apps/lua/lstrlib.c:341-358 | A balanced text ends at one place |
| LuaUpvals.Thread.FindUpval | apps/lua/lfunc.c:57-80 | The upvalue of the slot, new only if there was none: the list stays strictly decreasing, with one upvalue for each slot; no variable changes |
| LuaUpvals.Thread.Insert | apps/lua/lfunc.c:67-73 | A new upvalue in its place in the list |
| LuaUpvals.Thread.Close | apps/lua/lfunc.c:83-96 | Upvalues from the level on that are in use hold their variables themselves, others are gone; every variable keeps its value, and the slots stand for new ones |
| LuaUpvals.Thread.CloseFirst | apps/lua/lfunc.c:85-94 | One upvalue is closed |
| LuaUpvals.Thread.Agreement | apps/lua/lfunc.c:57-96 | An upvalue, the slot of its variable and all closures over it agree on its value |
| LuaUpvals.Thread.PushClosure | apps/lua/lvm.c:632-646 | Every upvalue of a new closure stands for the variable that its description names |
| LuaUpvals.Thread.SetUpval | apps/lua/lvm.c:855-860 | Writing through an upvalue, open or closed, changes its variable and no other |
| LuaUpvals.Thread.GetUpval | apps/lua/lvm.c:831-835 | Reading through an upvalue gives what its variable holds |
| LuaUpvals.Thread.ReallocStack | apps/lua/ldo.c:177-188 | Moving the stack changes no variable: every open upvalue points to the same slot of the new one |
| LuaUpvals.Thread.CorrectStack | apps/lua/ldo.c:158-170 | All open upvalues, and only they, are moved |
| LuaUpvals.Thread.Release | apps/lua/lgc.c:678-683 | A closed upvalue goes when no closure refers to it any more |
| LuaUndump.LoadState.UndumpDumped | apps/lua/lundump.c:258-278 | Undumping what was dumped consumes exactly its bytes and gives the function back, without debug information if it was stripped; unstripped, it is the same if and only if all functions inside one with a source have one |
| LuaUndump.LoadState.Undump | apps/lua/lundump.c:258-278 | For every stream: the function that its bytes stand for, or the error |
| LuaUndump.LoadState.LoadFunction | apps/lua/lundump.c:202-216 | A function with all that is in it, or the error |
| LuaUndump.LoadState.LoadProtos | apps/lua/lundump.c:152-163 | The nested functions |
| LuaUndump.LoadState.LoadConstants | apps/lua/lundump.c:118-149 | The constants; an unknown tag leaves nil |
| LuaUndump.LoadState.LoadDebug | apps/lua/lundump.c:180-199 | Lines, local variables and names of upvalues |
| LuaUndump.LoadState.LoadString | apps/lua/lundump.c:88-104 | A string of any length, or none |
| LuaUndump.LoadState.CheckHeader | apps/lua/lundump.c:236-252 | Accepts just the header of this machine and version |
| LuaChunk.HeaderOnly | apps/lua/lundump.c:236-252 | Exactly the streams that begin with the header of this machine and version are accepted |
| LuaUndump.Zio.Read | apps/lua/lzio.c:48-67 | The next bytes of the stream whatever its chunks, or all that is left and how much is missing |
| LuaUndump.Zio.Fill | apps/lua/lzio.c:23-35 | The next chunk, or the end |
| LuaUndump.AnyChunking | apps/lua/lzio.c:48-67 | All divisions into chunks that are not empty give the same stream |
| LuaDump.DumpState.Dump | apps/lua/ldump.c:202-215 | Writes the bytes of the chunk, or a part of them with an error just if the writer takes no more |
| LuaDump.DumpState.DumpFunction | apps/lua/ldump.c:166-181 | The bytes of a function |
| LuaDump.DumpState.DumpConstants | apps/lua/ldump.c:98-125 | The bytes of all constants |
| LuaDump.DumpState.DumpString | apps/lua/ldump.c:73-87 | The bytes of a string |
| LuaChunk.ChunkRead | apps/lua/ldump.c:166-215 | Reading the bytes of a chunk, whatever follows: the function, except for stripped debug information and inherited sources |
| LuaChunk.FunctionRead | apps/lua/ldump.c:166-181 | The same for a function inside others |
| LuaChunk.RoundTrip | apps/lua/ldump.c:166-215 | Reading gives the same function if and only if every function inside one with a source has one |
| LuaChunk.SourceGained | apps/lua/ldump.c:166-171 | A nested function without a source comes back with that of the function around it |
| LuaChunk.SameIffNamed | apps/lua/ldump.c:166-171 | Inheriting sources changes nothing just when none is missing |
| LuaPackRun.PackAndUnpack | apps/lua/lstrlib.c:1330-1537 | For every format and arguments that can be packed: unpacking gives them back, unchanged if and only if every fixed-size string has exactly its size, and one more than the length; the size of the format, if it has one, is the length |
| LuaPackRun.Pack | apps/lua/lstrlib.c:1330-1414 | The bytes of all options with their padding, or the error |
| LuaPackRun.PackSize | apps/lua/lstrlib.c:1417-1439 | The size of a format without variable lengths |
| LuaPackRun.Unpack | apps/lua/lstrlib.c:1476-1537 | The values that the bytes stand for and the position behind them, or the error |
| LuaPackRun.Format.ReadDetails | apps/lua/lstrlib.c:1268-1286 | An option with the padding that aligns it |
| LuaPackRun.Format.ReadNum | apps/lua/lstrlib.c:1182-1192 | A number that stops before it could overflow |
| LuaPack.UnpackPacked | apps/lua/lstrlib.c:1330-1537 | Unpacking inverts packing, whatever follows the data |
| LuaPack.ItemBack | apps/lua/lstrlib.c:1346-1532 | Every kind of value comes back, wherever it stands |
| LuaPack.SizeIsLength | apps/lua/lstrlib.c:1417-1439 | string.packsize is the length of what string.pack makes, whatever the arguments |
| LuaPack.ExactBack | apps/lua/lstrlib.c:1376-1385 | A fixed-size string comes back as it was if and only if it has exactly the size |
| LuaPack.ResultsAreArguments | apps/lua/lstrlib.c:1330-1537 | The arguments that a format uses come back as they were if and only if all fixed-size strings among them have exactly their size |
| LuaPackInt.IntBack | apps/lua/lstrlib.c:1295-1473 | Packing and unpacking an integer gives it back, in 1 to 16 bytes, signed or not |
| LuaPackInt.TwosComplement | apps/lua/lstrlib.c:1304-1307 | With its sign extended the number is the same up to a multiple of 256^size |
| LuaPackInt.PackInt | apps/lua/lstrlib.c:1295-1309 | The bytes of the integer, in either order |
| LuaPackInt.UnpackInt | apps/lua/lstrlib.c:1450-1473 | The integer, or the error that it does not fit |
| LuaOpcodes.DecodeEncode | apps/lua/lopcodes.h:34-126 | Every instruction whose arguments have their fields (A 8 bits, B and C 9, Bx 18, Ax 26, sBx in excess 131071) survives encoding into 32 bits and decoding |
| LuaOpcodes.FieldsABC | apps/lua/lopcodes.h:36-58 | The fields of an instruction do not overlap |
| LuaOpcodes.OperandMeaning | apps/lua/lopcodes.h:130-147 | The top one of nine bits tells constants from registers |
| LuaOpcodes.CompareLaw | apps/lua/lvm.c:364-392 | Integers and strings are totally ordered, `<=` is `<` or equal, strings go by the first difference, and nothing else can be compared |
| LuaPrecedence.BinaryLaw | apps/lua/lparser.c:1028-1075 | For any two binary operators: a o1 b o2 c is (a o1 b) o2 c just when o1 is on a higher level of the manual, or on the same one and associates to the left |
| LuaPrecedence.UnaryLaw | apps/lua/lparser.c:986-1075 | Unary operators bind below `^` and above all other binary operators |
| LuaPrecedence.MixedLaw | apps/lua/lparser.c:1028-1075 | A unary operator between two binary ones takes just `^` into its operand, and leaves the others to their levels |
| LuaPrecedence.AllListed | apps/lua/lparser.c:1026-1042 | Every binary operator is on one of the levels |
| GcWeak.ClosedKept | apps/lua/lgc.c:394-430 | In a closed set the values of entries that stay are alive |
| GcWeak.ClosedMeans | apps/lua/lgc.c:394-578 | A set is closed just when every slot, closed upvalue and entry leads into it as the traversals follow it |
| GcWeak.ClearedFades | apps/lua/lgc.c:639-651 | Clearing takes away only entries whose keys are objects without a mark |
| TableSpec.NormSame | apps/lua/ltable.c:461-474 | Two keys are normalized to the same one just when they are equal, or an integer of 64 bits and the float that equals it |
| TableSpec.RawEqualSame | apps/lua/lvm.c:407-450 | Raw equality is the same: with NaN equal to nothing |
| LuaTable.Table.FloatIsInteger | apps/lua/ltable.c:589-603 | For every integer of 64 bits, the float that equals it has the same value in every table |
| TableSpec.TooManyMeans | apps/lua/ltable.c:315-321 | A hash part overflows just when it needs more than 2^30 nodes |
| TableSpec.OverflowNeeds | apps/lua/ltable.c:315-321 | Only more than 2^30 keys overflow a table |
| FacilitySpec.ReopenedTotal | apps/edge-streamcluster/streamcluster.cpp:1053-1117 | No way to open x, close centers and let points stay or go to x changes the total by less than what was computed |
| FacilitySpec.ClosingBest | apps/edge-streamcluster/streamcluster.cpp:1086-1105 | No other set of centers to close would save more |
| FacilitySpec.CostsAtLeast | apps/edge-streamcluster/streamcluster.cpp:1053-1077 | Points that may stay or go to x save at most what was added up |
| FacilitySpec.Pythagoras | apps/edge-streamcluster/streamcluster.cpp:656-663 | Each coordinate adds the square of its difference to the distance |
| FacilitySpec.CostScales | apps/edge-streamcluster/streamcluster.cpp:1053-1054 | A cost is the distance for a point of weight 1, and grows with the weight |
| LuaPatternText.ItemRead | apps/lua/lstrlib.c:258-330 | Every set of characters with every suffix, written as the manual says, is read as that item wherever it stands |
| LuaPatternText.FrontierRead | apps/lua/lstrlib.c:457-468 | A frontier is read with the whole of its set |
| LuaPatternText.OtherItems | apps/lua/lstrlib.c:447-524 | Captures, positions, the end anchor, balanced texts and back references are read as what they are |
| LuaPatternText.ElementsRead | apps/lua/lstrlib.c:302-324 | The elements of a set are read as they were written, ranges and classes included |
| LuaPatternText.BracketRead | apps/lua/lstrlib.c:266-273 | A set ends at its closing bracket |
| LuaPattern.ClassesMean | apps/lua/lstrlib.c:282-299 | The characters of each class |
| LuaPattern.ClassesElse | apps/lua/lstrlib.c:282-299 | A capital letter stands for the characters outside the class, and what names no class for itself |
| LuaLayout.PackedPlace | apps/lua/lstrlib.c:1268-1392 | An item begins at the next multiple of its alignment, its size but no more than the greatest one, with zeros in front |
| LuaLayout.DetailsAlign | apps/lua/lstrlib.c:1268-1286 | An option fails for its alignment just when that is no power of 2; padding leads to the next multiple, for `X` to that of the option behind it |
| LuaLayout.ByteOrder | apps/lua/lstrlib.c:1295-1309 | Byte k from the least significant end is the digit of 256^k, at that place or, with the most significant byte first, at the mirrored one |
| LuaLayout.LettersRead | apps/lua/lstrlib.c:1221-1256 | Which letters are which options, with their sizes |
| LuaLayout.SettingsRead | apps/lua/lstrlib.c:1248-1252 | Which letters set the order of bytes and the greatest alignment |
| LuaPackInt.AcceptsIff | apps/lua/lstrlib.c:1346-1366 | Just those integers are packed that come back |
| LuaChunkBytes.HeaderBytes | apps/lua/ldump.c:184-196 | The 33 bytes of the header |
| LuaChunkBytes.ConstantBytes | apps/lua/ldump.c:100-128 | The tags of constants and the width of their values |
| LuaChunkBytes.StringBytes | apps/lua/ldump.c:73-87 | Strings of up to 40 bytes are short; those of up to 253 say their size in a byte |
| LuaChunkBytes.SampleBytes | apps/lua/ldump.c:166-181 | The order and width of all fields of a function |
| LuaQuote.EscapesRead | apps/lua/llex.c:381-395 | The bytes that escapes of one character stand for |
| LuaQuote.HexRead | apps/lua/llex.c:312-328 | Two hexadecimal digits of either case are the byte of that value |
| LuaQuote.Utf8Bits | apps/lua/lobject.c:346-361 | A code point takes as few bytes as hold its bits, which can be read back from them |

## Left out

- Code generator: arithmetic and its constant folding, floats, metamethods, upvalues, table access, calls and varargs as expressions; conditional statements and loops around expressions.
- LuaCode.FuncState.AddK: does not say that equal constants share an index, because sharing makes no difference to the value loaded.
- Collector: finalizers, fixed objects, emergency collections, pacing; weak values and tables that are weak in both ways; tables that become weak or strong; open upvalues (`remarkupvals`); the memory of closed upvalues (`luaC_upvdeccount`).
- Gc.Collector.AtomicPhase: does not model `clearvalues`, because values of ephemerons on `allweak` are marked and no other table is on the lists it goes through.
- Gc.Collector.TraverseFunction: does not model open upvalues, whose values are in the stack of their thread.
- Gc.Collector.TraverseThread: does not model the clearing of the dead part of the stack, and its shrinking.
- Gc.Collector.RunTilState: is limited to one state that the cycle has yet to reach, which is how `luaC_fullgc` calls it.
- Gc.Collector.PutEntry: does not model the shape of the nodes; entries are a sequence.
- Tables: keys replaced by dead-key tags, memory errors other than "table overflow", metamethod caches. The specialized search for short strings is the generic one.
- LuaTable.Table.Resize: is limited to sizes that hold the table's entries, which is how `rehash` and the interpreter call it; with smaller ones the re-insertion would rehash while resizing.
- Facility location: floats and their rounding, reading of streams, `selectfeasible_fast`, `contcenters`, `shuffle` of the points (their order is arbitrary); the TBB variant; the flag `open` and its condition variable in `pspeedy`, by which the threads learn of the next center; single steps of different blocks in turns. Rows of the working memory are sequences, so that the flat index pid * stride + t is not modelled.
- FacilityMedian.ManyPoints: is limited to a given number of turns, because arbitrary random numbers need never open enough centers, and with exact reals the prices need not meet while `loz` is 0; `hiz` is any positive number instead of the sum of the distances to the first point, so that points which all coincide, where that sum is 0 and z with it, are left out when there are more than `kmax` of them.
- Barrier: errors returned by mutex and condition functions, process-shared barriers, destruction.
- LuaSubexpr.LexState.ReadSubExpr: does not model the limit of nested C calls (`enterlevel`).
- LuaSort.Sorter.AuxSort: does not model a comparison that changes the table, or `unsigned int` indices, which cannot overflow for fewer than INT_MAX elements.
- LuaQuote.LexState.ReadBody: does not model the limit of lines (MAX_INT) and of the buffer.
- LuaMatch.MatchState.Search: does not model the plain search of `string.find` (`lmemfind`) and the start counted from the end.
- LuaMatch.MatchState.Match: takes the classes of characters of the C locale.
- LuaUpvals.Thread.FindUpval: does not model the list of threads with upvalues (`twups`) and the `touched` mark, which only the collector reads; the collector's barrier after closing is in `Gc.Collector.WriteUpvalue`.
- LuaUpvals.Thread.ReallocStack: does not move call frames and `top`, which are rebased like upvalues.
- LuaUndump.LoadState.LoadDebug: more names than upvalues, and a string constant without a string, end with an error of the model, because the original's behaviour is then undefined.
- LuaDump.DumpState.Dump: writes the header as one block, so that a writer takes all or nothing of it; is for 64-bit little-endian machines; the identity of two source strings is a function of their contents.
- LuaPackRun.Pack: floats are given by their representation in the type of the option, so that conversions between `double` and `float` are left out.
- LuaPackRun.Unpack: starts at the first position; a length that would overflow `size_t` when added is too long.
- The intern table, UTF-8 decoding.
