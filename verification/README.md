# A verified model of the Lua 5.1.4 core and of two arithmetic cores of Magic Lantern

The repository runs scripts on a camera with a vendored Lua 5.1.4 (`lua/`), and has two small programs of its
own whose point is arithmetic: `reloc.c`, which moves ARM code, and `decrypt-block.c`, the firmware cipher.
This project models the parts of them that are hard to get right and proves what they promise. Each part is a
group of modules that stands alone.

The C code updates state in place, so most of the models are classes: a method for a C function, with the same
branches, constants and error cases, and a specification on values beside it that the method is proved
against. What the program promises is then proved of the specification, for all inputs and all runs.

## The parts

**Collector** (`LuaHeap`, `Marking`, `GcState`, `Program`, `Collector` in `Gc.dfy`, `ColourBits`, `UvHead`). The incremental
tri-colour collector as a state machine. `Collector.GlobalState` has the lists of `global_State`; an `Action` is a
collector step, a full collection, or one of eighteen things a program does (allocate, store with the barrier the
source uses for that kind of object, write a stack slot without a barrier, capture a slot, close upvalues, make a
string that may be dead already, switch threads, change a root). `GcState.Inv` is what every action keeps. Its
core: nothing that is not dead refers to anything dead, and in the propagate phase a black object refers to no
white one. From it follow the two statements a user of the collector relies on: along every run nothing reachable
is freed, and a full collection leaves exactly what was reachable at the call, and what is fixed. `Program.Effect` says by the
names of fields what each action does, and what a step of the collector leaves alone; so a program finds in a table what it
has stored there (`Program.StoredIsLoaded`), whatever the collector did in between. A full collection
that starts in pause or propagate sweeps once without having flipped the white; that sweep is proved to free
nothing. `ColourBits` shows that the bit tests of `lgc.h`, with the fixed bit inside `currentwhite`, are the tests
on colours used everywhere else, and `UvHead` that the double links of the ring of open upvalues behave as the
sequence `uvhead` of the collector.

**Expression compiler** (`LuaVm`, `ExprSem`, `JumpLists`, `ExprState`, `ExprCode`, `BareJump`). The one-pass code generator of
`lcode.c`, driven as `subexpr` drives it, for locals, constants, arithmetic with constant folding, comparisons,
`and`, `or`, `not`, unary minus and length. Jump lists are threaded through the offsets of the jumps in the code,
registers are a stack. `LuaVm.Exec` is the loop of `luaV_execute`; `ExprSem.Eval` is what the language says an
expression means. The main result is `ExprCode.FuncState.Expression`: the code that is generated, run from any
registers, leaves the value of the expression in the first free register and every register below as it was, or
fails exactly where the expression does. Registers are freed in stack order all the way, which is what the assertion
in `freereg` asks.

This is not true of every expression, because the source has a defect: for a constant false before `and`, and a
constant true before `or`, it emits a bare `luaK_jump`, which takes over the jumps that wait for the next
instruction. `ExprCode.FuncState.LostValue` goes through the calls that the generator makes for
`((x or y) and false) and z` on any three locals, and `ExprCode.BareJumpLosesValue` shows that the finished code is right
exactly when x is false: for any other x it gives x. `BareJump.Exact` says what a bare jump needs in general, and is the
contract of `GoIfTrue` and `GoIfFalse` for this case: the code behind it is right exactly if no run takes one of the jumps
taken over with another value than the constant. Where the jump of the first test is the only one, this can be read off
the code (`BareJump.FirstTestDecides`): it must not be a TESTSET, which is what tests a local.

`ExprCode.Plain` is the condition under which the results for whole expressions hold: no jump may wait where such a bare
jump is emitted. It is computed from the tree, following the jumps that may leave an operand and the operators that may be
folded. All expressions without a constant, after folding, as an operand of `and`, `or` or `not` meet it
(`ExprCode.NoConstantOperandIsPlain`), and so do most of those with one.

**Tables** (`TableNodes`, `TableSizes`, `LuaTable`). The array part and the hash part with Brent's variation, as
`ltable.c` keeps them: chains of node indices, a free pointer that only moves down, moving a colliding node out of
its main position, `rehash` with `computesizes`. The main position is any function of key and size. A table is
compared with the map `Lookup`. `newkey` calls `rehash`, which calls `luaH_set`, which may call `newkey`; that the sizes
`rehash` computes are enough, so that the recursion is one level deep, is the termination argument
of these methods.

**Patterns** (`PatternSpec`, `PatternMatcher`, `PatternMeaning`). `match` of `lstrlib.c` with its captures in place. The reference is
declarative: `PatternSpec.Run` says whether a pattern matches when the repetition count of every character class is
given, `Before` in which order counts are preferred, and `Answers` picks the first choice that matches.
`PatternMeaning` then says of every kind of item, from the characters of the pattern alone, what an answer is.

**Sorting** (`Sort`). `auxsort` of `ltablib.c` for any strict weak order.

**Bytecode** (`Opcodes`, `LuaProto`, `Checker`, `ChunkFormat`, `Zio`, `ChunkIO`). The fields of an instruction, the checker
of `ldebug.c`, and precompiled chunks. The checker is compared with what `luaV_execute` does: it accepts exactly the code
that is `Checker.WellMade`, which says opcode by opcode that all operands exist, and of every instruction that execution
goes on at an instruction, forward or backward. It does not look at the C field of `LOADBOOL`; for values other than 0
and 1 the exact condition is proved instead. For chunks, `ChunkFormat` gives the format as functions, with the bytes of a
function written out in `Layout`, and `ChunkIO` the writer with its status and the reader over a stream that comes in
pieces.

**Names** (`Scope`). Locals, upvalues and blocks while functions are being compiled, and what `OP_CLOSURE` makes
of the descriptors.

**Priorities** (`Precedence`). `subexpr` as a parser: printing with the parentheses the priorities require, and
reading back. `Precedence.ManualOrder` compares the priorities with the order of the operators in section 2.5.6 of the
Lua 5.1 Reference Manual.

**Relocation** (`Reloc`). The whole loop of `reloc`, as compiled for ARM. A branch that leaves the function keeps its
absolute target exactly when the new distance is in reach (or the code has not moved); one that stays inside goes to the copy. That
is not true of every function: only four words in front of the copy are reserved for literals, and from the fifth
literal on the loop overwrites the beginning of the copy. `Reloc.BranchLost` is such a function, and the results
say which words are affected.

**Cipher** (`Decrypt`). `getoffsets` as exact remainders by 512 and 513, the cipher as its own inverse, and the
independence of the result from the sizes of the pieces that are read. `Decrypt.OffsetWraps` says exactly when a
piece may start anywhere: as long as the offset has not passed 2^32.

## Model

| member | source | states |
|---|---|---|
| Collector.GlobalState.Run | lua/lgc.c:556-607 | for every schedule of collector steps, full collections and program actions, every state keeps the invariant, no step frees anything the program could reach before it or hands out an address twice, and each step has the effect that its action has, field by field |
| Collector.GlobalState.Execute | lua/lgc.h:65-97 | one action of any kind, from any valid state and phase: the invariant holds again, nothing reachable has been freed, and the state is that of `Program.Effect` |
| LuaHeap.EdgeMeaning | lua/lgc.c:179-270 | what an object refers to, field by field: all positions of a table, all links of a closure or prototype, globals and whole stack of a thread, and the value of an upvalue in its slot or its own |
| GcState.RootsMeaning | lua/lgc.c:501-512 | the roots are the main and the running thread, the registry and the metatables of basic types |
| GcState.FieldsAreLive | lua/lgc.c:277-320 | in every valid state, every collectable value in a field of a live object, of whatever kind, is allocated and live |
| Program.StepCollects | lua/lgc.c:556-607 | what a step of the collector leaves: everything that could be reached, with the same slots, links, characters, globals and stacks; an upvalue that is closed has the value of its slot; no root changes |
| Program.FullCollects | lua/lgc.c:636-659 | the same for a full collection, which leaves nothing else but what is fixed |
| Program.StoredIsLoaded | lua/lvm.c:436-456 | along every run, the value that a program stores in a table is what it loads from there later, whatever the collector and other actions have done in between, until it stores there again |
| Program.SlotStays | lua/lvm.c:453-456 | no action but a store to it changes a position of a table that stays allocated |
| Collector.GlobalState.LoadIndex | lua/lvm.c:436-439 | the new top of the stack is position k of the slots or links of the object in the register, and nothing else has changed |
| Collector.GlobalState.StoreIndex | lua/lvm.c:453-456 | position k of the slots or links of that object is the value, with the barrier of its kind, and no field of any object has changed besides |
| Collector.GlobalState.LoadUpvalue | lua/lvm.c:423-427 | the new top of the stack is the value of the upvalue: that of its stack slot while it is open, its own when it is closed |
| Collector.GlobalState.StoreUpvalue | lua/lvm.c:447-452 | the stack slot of an open upvalue, or the own value of a closed one, is the value, and nothing else has changed |
| Program.ReturnEffect | lua/lfunc.c:96-112 | leaving a block closes the upvalues at and above it with the values of their slots, frees only what could not be reached, cuts the stack, and changes no other object |
| GcState.ReachableIsAlive | lua/lgc.c:407-428 | in every valid state, whatever a path from the roots leads to is allocated and not of the white that the sweep frees |
| GcState.FreedStaysUnreachable | lua/lgc.c:378-400 | along a whole run, an object that has been freed is never reachable again and never comes back |
| Collector.GlobalState.FullGc | lua/lgc.c:636-659 | from every state and phase a full collection ends in pause with exactly the objects reachable at the call and the fixed ones left, and no value, root or kind of object changed |
| Collector.GlobalState.FinishSweep | lua/lgc.c:636-648 | a full collection begun in pause or propagate sweeps first without flipping the white, and that sweep frees nothing, reachable or not |
| GcState.Reset | lua/lgc.c:638-646 | forgetting all marks before that sweep is safe: no object is dead then, and the invariant of the sweep phase holds |
| GcState.Exact | lua/lgc.c:650-658 | at the end of a cycle that marked only what was reachable at the call, the objects left are those and the fixed ones |
| GcState.StillReached | lua/lgc.c:649-656 | what was reachable at the call is alive in every later state in which values have not changed |
| Collector.GlobalState.SingleStep | lua/lgc.c:556-607 | one step, in every phase: the invariant, a measure that decreases until the cycle ends, only dead objects are freed, and a sweep step kills nothing |
| Collector.GlobalState.ReallyMarkObject | lua/lgc.c:69-112 | the object turns gray or black, marks only darken, what turns black has all it refers to marked, and nothing outside of a closed set that holds the object is marked |
| Collector.GlobalState.PropagateMark | lua/lgc.c:277-320 | the first gray object is traversed: all it refers to is marked; it turns black, or, if it is a thread, goes to grayagain |
| Collector.GlobalState.MarkAgain | lua/lgc.c:525-541 | the marking in atomic leaves no gray object: all that marked objects refer to is marked, through stacks, open upvalues and tables caught by a barrier |
| GcState.AfterAtomic | lua/lgc.c:541-552 | when nothing is gray the marked objects are closed under references, so flipping the white makes exactly unmarked objects dead and starts the sweep in a valid state |
| Collector.GlobalState.BarrierForward | lua/lgc.c:662-672 | after a store that left one black object referring to a white one, the barrier restores the invariant, in the propagate phase by marking and in a sweep by whitening, and no object dies or revives |
| Collector.GlobalState.BarrierTable | lua/lgc.c:675-683 | the same for the backward barrier of tables |
| GcState.StoreThread | lua/lgc.h:86-87 | a store into a stack keeps the invariant without any barrier, in every phase |
| Collector.GlobalState.NewObject | lua/lgc.c:686-692 | a new white object at the head of rootgc that refers to live objects only keeps the invariant in every phase, the sweep pointer included |
| Collector.GlobalState.NewString | lua/lstring.c:75-93 | the result is the only string with these characters; one that is dead but not swept yet is alive afterwards |
| GcState.OneStringPerContent | lua/lstring.c:50-72 | strings with the same characters are the same object in every valid state |
| Collector.GlobalState.PushClosure | lua/lvm.c:719-738 | a closure is made with the environment of the enclosing one, the prototype, and for every captured slot the upvalue open on it, for every outer one that of the enclosing closure; it is stored into without a barrier, and the invariant holds, in every phase |
| Collector.GlobalState.FindUpval | lua/lfunc.c:53-79 | the result is the only open upvalue of that slot and is alive, and every other object refers to what it referred to |
| GcState.FoundRefersToLive | lua/lfunc.c:60-63 | a dead open upvalue of a live thread still refers to live objects only, so that it may be revived without marking |
| GcState.OneUpvalPerSlot | lua/lfunc.c:53-79 | closures that capture a slot share one cell: no two open upvalues of one slot, in every valid state |
| Collector.GlobalState.CloseUpvals | lua/lfunc.c:96-112 | afterwards no upvalue of the thread at or above the level is open; dead ones are gone, the others hold the value of their slot, and nothing else has changed |
| Collector.GlobalState.LinkUpval | lua/lgc.c:695-710 | a closed upvalue enters rootgc with a colour that keeps the invariant: a gray one turns black with a barrier while marking, white while sweeping |
| Collector.GlobalState.SweepStep | lua/lgc.c:407-428 | one round of sweeping rootgc frees only dead objects that are not fixed, whitens the survivors with the open upvalues of threads, and goes on or ends the phase |
| GcState.FreshState | lua/lstate.c:152-200 | the state lua_newstate makes is valid, so that the results hold of every run of a program |
| ColourBits.Tests | lua/lgc.h:65-79 | on a byte of any colour the bit tests for white, black and dead are the tests on the colour, whatever the other bits |
| ColourBits.SweepTest | lua/lgc.c:410-414 | the one test of the sweep keeps exactly the objects that are not dead or are fixed |
| ColourBits.Header.MakeWhite | lua/lgc.c:29-32 | from any colour to the current white, with all other bits as they were |
| ColourBits.Header.ChangeWhite | lua/lgc.h:78-79 | from either white to the other, with all other bits as they were |
| UvHead.OpenList.Link | lua/lfunc.c:73-78 | the new upvalue comes first in the ring, whose links are mutually inverse again |
| UvHead.OpenList.Unlink | lua/lfunc.c:82-86 | exactly that upvalue leaves the ring, the order of the others stays, and the links are mutually inverse again |
| UvHead.OpenList.Walk | lua/lgc.c:515-522 | following next from the head meets every open upvalue once and comes back to the head |
| ExprCode.FuncState.Expression | lua/lparser.c:828-853 | the code generated for an expression leaves its value in the first free register and keeps all registers below, from any registers, and fails exactly where the expression fails; one register more is in use. For a nil literal that needs no instruction the code is left as it is, or its last LOADNIL extended |
| ExprCode.CompileAlone | lua/lparser.c:828-858 | for any expression over locals with proper constants, none an operand of `and`, `or` or `not`: compiled into an empty function, the code leaves its value behind the locals, from any registers |
| ExprCode.RunLeaves | lua/lvm.c:373-402 | what it means that code computes an expression: its value in the register and every register below as it was, or an error where there is no value |
| ExprCode.ComparisonComputed | lua/lcode.c:681-694 | code for a comparison leaves the boolean that the comparison of the left value with the right one has; for `>` and `>=` that of the right one with the left one, for `~=` the opposite |
| ExprSem.RelationMeaning | lua/lcode.c:687-691 | `l > r` means what `r < l` means and `l >= r` what `r <= l` means; `~=` is the opposite of `==`; `<`, `<=` and `==` compare the left value with the right one |
| ExprSem.ArithmeticMeaning | lua/lvm.c:470-529 | arithmetic on the left and the right value in this order, by numbers or metamethods; minus, length and negation of a value |
| ExprSem.LogicMeaning | lua/lcode.c:745-760 | `and` gives a nil or false first operand and else the second, `or` the other way round, without evaluating what is not needed |
| ExprSem.LeafMeaning | lua/lparser.c:727-775 | constants and locals, and which operators fail with their operands |
| LuaVm.LoadMeaning | lua/lvm.c:403-422 | what MOVE, LOADK, LOADBOOL with its skip, and LOADNIL do to the registers |
| LuaVm.OperatorMeaning | lua/lvm.c:470-529 | what the arithmetic and unary instructions leave in R(A), with B as the first operand |
| LuaVm.OperandMeaning | lua/lvm.c:345-352 | an operand field stands for a register, nil where none has been set, or for a constant |
| LuaVm.TestMeaning | lua/lvm.c:541-581 | comparisons take the jump behind them if the result is A; TEST and TESTSET if the register is true exactly when C is, and then TESTSET copies it |
| ExprCode.FuncState.Expr | lua/lparser.c:828-853 | the same before the value is put in a register: the descriptor with its true and false lists stands for the value of the expression, and the code before is as it was |
| ExprCode.NoConstantOperandIsPlain | lua/lcode.c:539-591 | no bare jump can take over a jump in an expression without a constant, after folding, as an operand of `and`, `or` or `not`, wherever it begins |
| ExprCode.BareJumpLosesValue | lua/lcode.c:547-549 | the finished code for `((x or y) and false) and z` gives the value of the expression exactly when x is false |
| ExprCode.FuncState.LostValue | lua/lcode.c:59-66 | the calls that are made for this expression produce that code, for any three locals |
| BareJump.Exact | lua/lcode.c:59-66 | after a bare jump the code leaves with the right value exactly if no run takes one of the jumps that waited for its place with another value than the constant |
| BareJump.FirstTestDecides | lua/lcode.c:545-549 | where only the jump of the first test waits, that is so exactly if this test is no TESTSET |
| BareJump.WaitingTestSet | lua/lcode.c:524-536 | a TESTSET on which the code begins, its jump waiting, gives a wrong value for some registers |
| BareJump.NoValue | lua/lcode.c:122-128 | jumps that yield no value may be taken over |
| ExprCode.FuncState.GoIfTrue | lua/lcode.c:539-564 | the code goes on exactly for true values and leaves with the value through the false list otherwise; where a bare jump takes over jumps, the new list has them all, and the code is right exactly if they are harmless |
| ExprCode.FuncState.GoIfFalse | lua/lcode.c:567-591 | the same with true and false exchanged |
| ExprCode.FuncState.CodeNot | lua/lcode.c:594-626 | the code computes the negation: lists are exchanged, jumps no longer yield values, constants and comparisons are inverted without an instruction |
| ExprCode.FuncState.JumpOnCond | lua/lcode.c:524-536 | one more jump, open, leaves for values of the wanted sense, and a NOT in front has been taken back |
| ExprCode.FuncState.CodeArith | lua/lcode.c:661-678 | the operator on two operand descriptors: folded, or one relocatable instruction, with the temporaries of both operands freed in stack order |
| ExprCode.FuncState.CodeComp | lua/lcode.c:681-694 | a comparison as an open conditional jump that is taken when the relation holds, `>` and `>=` by exchanging operands |
| ExprCode.FuncState.Exp2Reg | lua/lcode.c:390-411 | value, true exits and false exits all end with the value in the register; for a nil that needs no instruction the code is left as it is, or its last LOADNIL extended |
| ExprCode.FuncState.PatchValues | lua/lcode.c:395-408 | the second half of exp2reg: jumps that yield no value go to loads of true and false, the others to the end, and one falling through a comparison gets false |
| ExprCode.FuncState.Exp2RK | lua/lcode.c:444-469 | the operand is a register or a constant whose index fits, for the same value |
| ExprCode.FuncState.FreeExp | lua/lcode.c:215-226 | the register that is freed is the top one, which is what the assertion in freereg asks |
| ExprCode.FuncState.PatchListAux | lua/lcode.c:150-160 | every jump of the list gets its target, the value target where a TESTSET controls it and the other target else, and nothing else changes but those tests |
| ExprCode.FuncState.Concat | lua/lcode.c:185-196 | one finite list with exactly the jumps of both, and no instruction changed but the threading of the first list |
| ExprCode.FuncState.Jump | lua/lcode.c:59-66 | the new jump and all jumps that waited for this place become one list |
| ExprCode.FuncState.PatchToHere | lua/lcode.c:179-182 | the jumps of the list wait for the next instruction, together with those that did already |
| ExprCode.FuncState.NeedValue | lua/lcode.c:122-128 | true exactly if some jump of the list is not controlled by a TESTSET |
| ExprCode.FuncState.Nil | lua/lcode.c:35-56 | the three cases of luaK_nil, and nothing else changes |
| ExprCode.NilMeaning | lua/lcode.c:44-51 | the LOADNIL in front, once extended, does from any registers what it did followed by the one that is saved |
| ExprSem.Branch | lua/lcode.c:745-760 | code for the left operand of `and` or `or` followed by code for the right one is code for the whole, its exits being those of both |
| ExprSem.Load | lua/lcode.c:343-379 | an instruction that loads what a descriptor stands for turns its code into code that leaves the value in a register |
| LuaVm.Resume | lua/lvm.c:537-581 | a run of code with open jumps, continued when these get targets behind it: it goes on where the jump leads, with the register set if a TESTSET yields a value |
| LuaVm.ExecSplit | lua/lvm.c:373-402 | a run that passes a place is a run up to there followed by one from there |
| JumpLists.ChainAppend | lua/lcode.c:185-196 | setting the last offset of one list to the head of another gives a finite list without repetition with the jumps of both |
| JumpLists.HereHere | lua/lcode.c:163-182 | jumps that wait for the same place may be resolved one list after the other |
| LuaTable.Table.Put | lua/ltable.c:494-505 | after an assignment the table reads as before but for that key; nil and NaN keys are refused; the table is well formed again, through collisions, moved nodes and rehashes. It overflows only with 2^26 entries or more, and then the entries are named that are lost |
| LuaTable.Table.Set | lua/ltable.c:494-529 | the slot that is returned is that of the key, and no value has changed |
| LuaTable.Table.Get | lua/ltable.c:469-491 | the slot where the key is, or none |
| LuaTable.Table.SlotReads | lua/ltable.c:469-491 | reading through the slot that is returned gives the value of the key |
| LuaTable.Table.LookupMeaning | lua/ltable.c:435-452 | indices up to the size of the array part are read from there, any other key from the one node that has it, and a key that is nowhere has nil |
| LuaTable.Table.EntriesMeaning | lua/ltable.c:222-260 | the entries are the values that are not nil in both parts |
| LuaTable.Table.RoomyMeaning | lua/ltable.c:40-47 | a table with fewer than 2^26 entries and no unused part of its array is sure to be rehashed without an overflow |
| LuaTable.Table.PlaceMeaning | lua/ltable.c:137-159 | the order of a traversal: the array part by index, then the nodes by number; nil comes before, and a key that is nowhere has no place |
| LuaTable.InUseMeaning | lua/ltable.c:211-260 | the indices that rehash counts are those with a value in either part, and the new key |
| LuaTable.Table.NewKey | lua/ltable.c:399-429 | a slot for a new key without changing any value; after a rehash there is a place, so that the recursion is one level deep |
| LuaTable.Table.PlaceColliding | lua/ltable.c:402-425 | with the main position taken: either the other node moves to the free one, or the new key goes there; chains, unique keys and main positions stay in order |
| TableNodes.MadeWayWf | lua/ltable.c:411-420 | moving the node out of the main position of the new key keeps every key on the chain from its main position |
| TableNodes.LinkedInWf | lua/ltable.c:421-425 | the same for linking a free node in behind the main position |
| LuaTable.Table.GetFreePos | lua/ltable.c:382-388 | a node that was never used, such that all above it have been, or none if there is none |
| LuaTable.Table.Rehash | lua/ltable.c:333-349 | unless the table overflows, no value changes, there is room for the new key afterwards, and the array part has the largest size more than half of whose slots are in use |
| LuaTable.Table.Resize | lua/ltable.c:297-324 | every entry is put back without a rehash on the way, and no value changes, unless the hash part would need more than 2^26 nodes |
| LuaTable.Sufficient | lua/ltable.c:333-349 | the entries that stay out of the array part, with the new key, are exactly as many as the hash part is made for |
| TableSizes.ComputeSizes | lua/ltable.c:189-208 | the size is 0 or a power of two more than half of whose slots are in use, no larger power of two is, and the count is that of the keys inside |
| TableSizes.SizeMeaning | lua/ltable.c:189-208 | the size is 0 or one of 1, 2, 4 to 2^26 with more than half of the indices up to it in use, and no larger one of these has that |
| LuaTable.Table.CountInt | lua/ltable.c:211-219 | the key is counted in its slice if it may index the array part |
| LuaTable.Table.NumUseArray | lua/ltable.c:222-244 | the slices count the indices in use in the array part |
| LuaTable.Table.NumUseHash | lua/ltable.c:247-260 | and those of the hash part with them |
| TableSizes.CeilLog2 | lua/lobject.c:54-69 | the slice of an index: x lies in (2^(l-1), 2^l] |
| TableSizes.Log2 | lua/lobject.c:54-69 | the position of the highest bit, -1 for 0 |
| LuaTable.Table.ResizeArray | lua/ltable.c:327-330 | a growing array part changes no value |
| LuaTable.Table.Next | lua/ltable.c:162-179 | the first entry behind that of the key in traversal order, the end if there is none, an error exactly for a key that is not in the table |
| LuaTable.Table.Traverse | lua/ltable.c:137-179 | starting from nil and feeding keys back, while entries are set to nil on the way: it ends, no key comes twice, only entries come, and every entry still there has come |
| PatternMatcher.MatchState.Match | lua/lstrlib.c:365-440 | the result is that of the first choice of counts that does not fail: a position with its captures, or an error exactly where that choice meets a malformed part of the pattern; if every choice fails, level and captures are as before |
| PatternMatcher.MatchState.MaxExpand | lua/lstrlib.c:301-313 | the same for the greedy repetition of a class |
| PatternMatcher.MatchState.MinExpand | lua/lstrlib.c:316-326 | and for the lazy one |
| PatternMatcher.MatchState.StartCapture | lua/lstrlib.c:329-340 | and with a capture opened, which is undone on failure |
| PatternMatcher.MatchState.EndCapture | lua/lstrlib.c:343-351 | and with a capture closed, which is undone on failure |
| PatternMatcher.MatchState.DoBack | lua/lstrlib.c:354-362 | and for a back reference: the captured text again, or an error for an index that is not closed |
| PatternMatcher.MatchState.FindMatch | lua/lstrlib.c:514-533 | the leftmost position from which the pattern does not fail, with the match or the error there, or no match from any |
| PatternMeaning.Star | lua/lstrlib.c:424-426 | a class with `*`: an answer takes k characters of the class behind which the rest matches, and behind no larger number of them does it match; there is none if no number does |
| PatternMeaning.Minus | lua/lstrlib.c:430-432 | with `-`: the same with no smaller number |
| PatternMeaning.Plus | lua/lstrlib.c:427-429 | with `+`: the largest number of at least one |
| PatternMeaning.Question | lua/lstrlib.c:418-423 | with `?`: one character if the rest matches behind it, else none |
| PatternMeaning.Plain | lua/lstrlib.c:433-436 | without a suffix: exactly one character of the class |
| PatternMeaning.ClassWellFormed | lua/lstrlib.c:414-438 | a class with its suffix raises no error |
| PatternMeaning.AtEndOfPattern | lua/lstrlib.c:406-408 | at the end of the pattern the match ends where it is, with its captures |
| PatternMeaning.Dollar | lua/lstrlib.c:409-413 | `$` as the last character matches at the end of the source only |
| PatternMeaning.Opening | lua/lstrlib.c:368-373 | `(` opens a capture and `()` captures the position; the thirty-third is an error |
| PatternMeaning.Closing | lua/lstrlib.c:374-376 | `)` closes the last capture that is open |
| PatternMeaning.NothingToClose | lua/lstrlib.c:194-199 | and is an error if none is |
| PatternMeaning.BackReference | lua/lstrlib.c:396-403 | `%1` to `%9` match the captured text again; an index that is not that of a closed capture is an error |
| PatternMeaning.FrontierItem | lua/lstrlib.c:384-395 | `%f[set]` matches between a character outside of the set and one inside, the ends of the source being zeros |
| PatternMeaning.BalanceItem | lua/lstrlib.c:281-298 | `%bxy` matches from an x to the first place with as many y as x |
| PatternMeaning.EqualBalanceItem | lua/lstrlib.c:281-298 | `%bxx` matches from one x to the next, with both |
| PatternMeaning.ClassLetters | lua/lstrlib.c:226-242 | the ten letters behind `%` by the codes of their characters, their complements in upper case, and other characters as themselves |
| PatternMeaning.PlainClasses | lua/lstrlib.c:268-275 | `.`, `%x` and plain characters, and where they end |
| PatternMeaning.Malformations | lua/lstrlib.c:202-223 | `%` at the end, a set without its bracket, `%b` without two delimiters and `%f` without a set are errors when they are met |
| PatternMeaning.SetRead | lua/lstrlib.c:245-265 | a set written from characters, ranges and classes, negated or not, ends at its bracket and matches exactly the characters of its elements, or the others |
| PatternMeaning.SetEdges | lua/lstrlib.c:208-218 | in a set a closing bracket that comes first and a minus sign that comes last stand for themselves |
| PatternSpec.AnswerUnique | lua/lstrlib.c:365-440 | the answer is determined by pattern, source and captures |
| PatternSpec.Ordered | lua/lstrlib.c:301-326 | any two choices of counts that do not fail are comparable in the order of preference |
| PatternSpec.WellFormedMatches | lua/lstrlib.c:186-223 | a pattern with its classes, captures and indices in order raises no error, whatever it is matched with |
| PatternSpec.BalanceMeaning | lua/lstrlib.c:281-298 | %bxy ends at the first place where the closing characters have made up for the opening ones |
| PatternSpec.EqualDelimiters | lua/lstrlib.c:281-298 | %bxx matches from one x to the next |
| Sort.SortTable | lua/ltablib.c:256-264 | for every strict weak order the values 1 to n are sorted and a permutation of what they were, and calls are nested at most log2 n deep |
| Sort.AuxSort | lua/ltablib.c:193-254 | the same for any range; nothing outside of it changes |
| Sort.Partition | lua/ltablib.c:218-240 | the values before the returned place are not greater and those behind not less than the pivot there, by swaps inside the range only |
| Sort.Scan | lua/ltablib.c:224-236 | the inner loops stop inside the range, so that "invalid order function" is never raised for a strict weak order |
| Sort.MedianOfThree | lua/ltablib.c:196-217 | first, middle and last value are in order, by swaps inside the range |
| Checker.CheckCode | lua/ldebug.c:484-486 | the checker accepts exactly the code that is well made: frame, operands of every opcode, companions of tests, open calls and closures, and every place that execution may go to, forward or backward, an instruction and never the count of a SETLIST; for a LOADBOOL with C above 1 exactly if it skips an instruction of one word |
| Checker.AcceptsWellMade | lua/ldebug.c:322-472 | the conditions that the checker tests and those of well-made code are equivalent: soundness and completeness |
| Checker.JumpReaches | lua/lvm.c:537-540 | where jumps and loops lead, from the bits of the word |
| Checker.EmptyLoop | lua/ldebug.c:344-361 | the two words of `while true do end` are accepted |
| Checker.PathStays | lua/lvm.c:373-402 | in accepted code every way that execution may take stays on instructions |
| Checker.Parity | lua/ldebug.c:346-359 | the parity of the run of words that look like an open SETLIST before a jump target decides whether it is an instruction |
| Checker.CheckDest | lua/ldebug.c:346-359 | the backward scan accepts exactly the targets that linear decoding reaches |
| Checker.CheckInstr | lua/ldebug.c:322-472 | one turn of symbexec accepts exactly valid instructions and goes on at the next one; `AcceptsWellMade` says what valid is |
| Opcodes.FieldsABC | lua/lopcodes.h:76-111 | the fields of a word are those it was made of, for all values that fit |
| Opcodes.WordOfFields | lua/lopcodes.h:76-111 | every word is made of its fields, in both formats |
| Opcodes.SetFields | lua/lopcodes.h:79-99 | setting a field changes that field and no other |
| Opcodes.SetOffset | lua/lopcodes.h:101-102 | an offset in excess K is read back as it was written |
| ChunkIO.DumpThenUndump | lua/lundump.c:195-209 | dumping a function and undumping what was written gives the function back, without debug data if stripped, however the reader splits the stream, and consumes exactly those bytes |
| ChunkIO.EveryCut | lua/lzio.c:21-32 | every way to deliver bytes in pieces that are not empty is among those that are considered |
| ChunkFormat.ChunkRound | lua/lundump.c:161-209 | the same for the format: what follows the chunk is left over |
| ChunkFormat.FunctionAt | lua/lundump.c:161-181 | the same for a function at any depth of nesting, with sources shared with the parent |
| ChunkFormat.StringAt | lua/lundump.c:76-88 | strings come back with embedded zeros, and absent ones as absent |
| ChunkFormat.WordRound | lua/lundump.c:61-67 | four bytes give back the word they were written from |
| ChunkFormat.HeaderMeaning | lua/lundump.c:214-227 | the twelve bytes of the header |
| ChunkFormat.WordMeaning | lua/ldump.c:35-53 | a word, least significant byte first |
| ChunkFormat.ValueMeaning | lua/ldump.c:55-103 | the bytes of ints, strings, each kind of constant and local variables |
| ChunkFormat.Layout | lua/ldump.c:88-141 | the bytes of a function with two instructions, two constants, a local variable and an upvalue, in their order, with and without debug data |
| ChunkFormat.NestedLayout | lua/ldump.c:101-104 | functions inside come in their order, and one with the source of its parent writes none |
| ChunkFormat.LoadedMeaning | lua/ldump.c:107-134 | what comes back: everything, or everything but names, lines and sources |
| ChunkFormat.EncodableMeaning | lua/lundump.c:161-181 | well-made code with numbers and strings that fit can be written and read back, nested below 200 calls |
| ChunkFormat.LoadedIsWellMade | lua/lundump.c:161-181 | whatever bytes a function has been loaded from, good or bad, it and all functions inside are well made |
| ChunkFormat.ChunkChecked | lua/lundump.c:183-209 | only what begins with the header of the platform is loaded |
| ChunkFormat.ValuesChecked | lua/lundump.c:61-110 | missing bytes, negative counts and unknown kinds of constants are refused |
| ChunkFormat.AcceptsLoaded | lua/lundump.c:178-179 | code that the checker accepts is accepted again without debug data |
| ChunkIO.DumpState.DumpFunction | lua/ldump.c:129-141 | the writer gets the bytes of the format, or reports an error and is not called again |
| ChunkIO.DumpState.Dump | lua/ldump.c:153-164 | status 0 means that the whole chunk has been written |
| ChunkIO.LoadState.ReadFunction | lua/lundump.c:161-181 | the loader reads what the format says from any stream, good or bad, and stands behind it |
| ChunkIO.LoadState.Undump | lua/lundump.c:195-209 | the same for a whole chunk |
| ChunkIO.LoadState.ReadString | lua/lundump.c:76-88 | the same for a string |
| Zio.ZIO.Read | lua/lzio.c:58-71 | the next bytes of the stream, whatever the pieces, and how many were missing |
| Zio.ZIO.Lookahead | lua/lzio.c:35-45 | the next byte, without consuming it |
| Zio.ZIO.Fill | lua/lzio.c:21-32 | the first byte of the next piece, or the end of the stream |
| Scope.Parser.SingleVar | lua/lparser.c:248-253 | a global exactly if no enclosing function has an active local of the name; else the descriptors lead to the latest declaration in the nearest such function, and only the block that owns it is marked; an error only if a function has sixty upvalues |
| Scope.Parser.SingleVarAux | lua/lparser.c:224-245 | the same at every level of nesting, with the error for too many upvalues |
| Scope.ResolveMeaning | lua/lparser.c:224-245 | a name stands for the last of its declarations in the nearest function around that has one |
| Scope.Parser.IndexUpvalue | lua/lparser.c:183-204 | a descriptor is found or recorded once; no function records a place twice |
| Scope.Parser.MarkUpval | lua/lparser.c:217-221 | exactly the innermost block that owns the register is marked |
| Scope.Parser.LeaveBlock | lua/lparser.c:296-307 | the locals of the block go, and OP_CLOSE is emitted exactly if a closure has captured one of them |
| Scope.OriginStays | lua/lparser.c:183-204 | what is recorded later does not change where an earlier descriptor leads |
| Scope.CellsFollow | lua/lvm.c:719-738 | the cell that OP_CLOSURE puts into a closure is that of the variable the name stands for, through any number of functions |
| Precedence.RoundTrip | lua/lparser.c:828-858 | every expression tree, printed with the parentheses its priorities require, is read back as the same tree |
| Precedence.PrintRead | lua/lparser.c:828-853 | the same inside of other expressions, for every limit and whatever follows |
| Precedence.ReadPrint | lua/lparser.c:817-826 | no parentheses are printed that are not required: what was read without any is printed as it was written |
| Precedence.TwoOperators | lua/lparser.c:817-824 | of two operators in a row the second binds first exactly if its left priority is above the right one of the first |
| Precedence.ManualOrder | lua/lparser.c:817-824 | of two operators in a row that of the higher group of section 2.5.6 of the Lua 5.1 Reference Manual binds first; inside one group the reading is to the left, and to the right for `..` and `^` |
| Precedence.BinaryThenUnary | lua/lparser.c:828-853 | a binary operator takes a unary operand to its right |
| Precedence.Parenthesised | lua/lparser.c:828-853 | parentheses override the order |
| Precedence.TokensKept | lua/lparser.c:828-853 | whatever is read, the tree has the tokens read in their order, without the parentheses, and these are balanced |
| Precedence.UnaryThenBinary | lua/lparser.c:826-853 | `not`, `#` and `-` bind tighter than all binary operators but `^` |
| Precedence.Parser.Subexpr | lua/lparser.c:828-853 | the parser reads what the grammar says and returns the first operator that it has not treated |
| Reloc.BranchesMove | reloc.c:67-134 | the copy of a branch goes where it should exactly if the target is inside, or in reach, or the code has not moved, for every word that no literal has overwritten; condition and link bit stay |
| Reloc.BranchOutside | reloc.c:80-130 | a branch that leaves the function has the same absolute target at its new address, in 32-bit arithmetic, exactly if the distance fits or the address is the same |
| Reloc.BranchInside | reloc.c:85-87 | a branch inside the function goes to the copy of the word it went to |
| Reloc.DestinationIsTarget | reloc.c:78-83 | the destination computed with a sign extension to 32 bits is the one the machine uses |
| Reloc.BranchEncoding | reloc.c:70-83 | where a branch goes, by the bits of the word |
| Reloc.LoadEncoding | reloc.c:188-204 | what an access through the program counter reads, by the bits of the word |
| Reloc.Relocate | reloc.c:58-240 | which word is in which place after the loop: copies with fixed branches and loads, literals, and untouched words |
| Reloc.FifthLiteral | reloc.c:54-56 | from the fifth literal on, each one replaces a word at the beginning of the copy |
| Reloc.BranchLost | reloc.c:54-56 | a function whose first word is a branch inside itself and whose copy does not begin with a branch |
| Reloc.LiteralsMove | reloc.c:180-240 | the literal of a far access is where the copy looks for it exactly if that is less than 4096 bytes away |
| Decrypt.GetOffsets | decrypt-block.c:142-157 | the offsets are the remainders of the base by 512 and by 513 |
| Decrypt.QuotientBy513 | decrypt-block.c:149-156 | the upper half of the product with 0xFF803FE1, shifted by nine, is the quotient by 513 for every 32-bit base |
| Decrypt.DecryptBlock | decrypt-block.c:162-183 | every byte is combined with the key of its own position, the wrapping counters never leave the tables, and the rest of the buffer stays |
| Decrypt.ByteMeaning | decrypt-block.c:174-177 | each byte is combined with the entries of both tables at its place modulo 512 and 513, and with 0x37 |
| Decrypt.SelfInverse | decrypt-block.c:174-177 | decrypting twice with the same base gives the bytes back |
| Decrypt.PiecesAreOne | decrypt-block.c:198-210 | decrypting a stream in pieces of any sizes equals decrypting it in one call, up to 2^32 |
| Decrypt.OffsetWraps | decrypt-block.c:206-207 | at an offset that has wrapped the second table is entered in the right place exactly if it has not passed 2^32 |
| Decrypt.Run | decrypt-block.c:187-213 | the loop of main writes the decrypted stream, however the reads were cut |
| Decrypt.RunTwice | decrypt-block.c:187-213 | the program run on its own output gives back its input, however either was cut |

## Left out

- Camera code (audio, lens, focus, bitmaps, menus, properties, boot): device registers and calls into closed firmware.
- The stand-alone front ends, and the I/O, operating system, mathematics and debug libraries of Lua.
- Error recovery by longjmp, hooks and coroutine switching; runtime errors are results.
- Collector: weak tables, userdata with finalizers, reallocation of stacks, byte accounting, resizing of the string table and luaC_freeall. The finalize phase is there without anything to call.
- Collector: an address is never used again, so that freed objects can be told from new ones; the hash of a string is a parameter; programs work on the registers of the running thread.
- Expressions: calls, indexing, concatenation, upvalues, globals and assignments. Strings and other values of no interest to the code generator are opaque; numbers are an abstract type with a test for NaN, without the two zeros. The limits on the size of code, constants and registers are not modelled.
- ExprCode.FuncState.Expression: proved for trees with `Plain`, which is sufficient; that every tree outside of it is miscompiled is not claimed, and is not so, because the jumps that are taken over may carry the right value, or no run may reach them. What is exact is the condition at each bare jump.
- ExprCode.FuncState.Expr: a nil operand of an arithmetic operator or a comparison needs room in the constant table, and a nil literal before `and`, or under minus or length, at the very beginning of the expression needs an instruction of its own: at the start of a function, or behind a LOADNIL that it would extend, the code does not set the register, and so does not compute the value from any registers.
- Tables: keys that the collector has marked as dead, metatables and luaH_getn are not modelled. Counts are not limited to the range of int.
- Patterns: the classes of characters are those of the C locale; gsub, gmatch and the plain search are callers of what is modelled.
- Checker.CheckCode: the symbolic execution that finds the names of variables for error messages is not part of it.
- Chunks: one platform, with sizes of four bytes for int, size_t and instructions and eight opaque bytes for numbers. A string constant of size 0, which the loader turns into a null pointer, is an error here.
- Scope.Parser.SingleVar: names are strings; the limit on active locals and the debug information for them are left out.
- Precedence.Parser.Subexpr: calls, indexing, constructors and functions as operands, the code that is generated on the way, and the limit on nesting.
- Reloc.Relocate: the image that is read and the memory that is written do not overlap, addresses of the copy do not pass 2^32, and the function ends early enough for the loop to end. Additions to the program counter are copied as they are, as in the source, so nothing is claimed of them.
- Reloc.LiteralsMove: for accesses with an immediate offset, and copies of less than 2^31 bytes. A literal inside the function is copied like an instruction; one that looks like a branch may be changed.
- Decrypt.Run: the contents of the two tables are parameters, and a word of an address has 32 bits. The product of two words in getoffsets overflows the signed type for large bases, which C leaves undefined: the usual wrap-around is assumed. The bytes are those of the files that the program is given.
