/** The bytecode checker of ldebug.c, and where luaV_execute may go from an instruction. */
module Checker {
  import opened Opcodes
  import opened LuaProto

  const MAXSTACK: nat := 250
  const NO_REG: nat := MAXARG_A

  function Op(code: seq<Word>, pc: nat): nat
    requires pc < |code|
  {
    GetOpcode(code[pc])
  }

  /** A SETLIST whose count is the following word; or a word that looks like one. */
  predicate OpenSetlist(i: Word) { GetOpcode(i) == OP_SETLIST && ArgC(i) == 0 }

  /** Linear decoding: pc holds an instruction, and not the count of a SETLIST before it. */
  predicate IsInstr(code: seq<Word>, pc: nat)
    requires pc <= |code|
  {
    pc == 0 || !(OpenSetlist(code[pc-1]) && IsInstr(code, pc - 1))
  }

  // ---- Execution ---------------------------------------------------------------------------

  /** Where luaV_execute may continue after the instruction at pc, or come back to after a call. */
  function Targets(f: Proto, pc: nat): set<int>
    requires pc < |f.code|
  {
    var i := f.code[pc];
    var op := GetOpcode(i);
    if op == OP_RETURN then {}
    else if op == OP_JMP || op == OP_FORPREP then {pc + 1 + ArgSBx(i)}
    else if op == OP_FORLOOP then {pc + 1, pc + 1 + ArgSBx(i)}
    else if ModeOf(op).test then
      // the test skips the next instruction, or jumps as that says
      (if pc + 1 < |f.code| then {pc + 2, pc + 2 + ArgSBx(f.code[pc+1])} else {pc + 2})
    else if op == OP_LOADBOOL then {if ArgC(i) != 0 then pc + 2 else pc + 1}
    else if op == OP_SETLIST then {if ArgC(i) == 0 then pc + 2 else pc + 1}
    else if op == OP_CLOSURE then {pc + 1 + (if ArgBx(i) < |f.p| then f.p[ArgBx(i)].nups else 0)}
    else {pc + 1}
  }

  /** All control transfers from pc land on instructions. */
  ghost predicate Lands(f: Proto, pc: nat)
    requires pc < |f.code|
  {
    forall t :: t in Targets(f, pc) ==> 0 <= t < |f.code| && IsInstr(f.code, t)
  }

  /** A LOADBOOL whose C field the checker does not look at although the machine skips. */
  predicate OddSkip(i: Word) { GetOpcode(i) == OP_LOADBOOL && ArgC(i) > 1 }

  /** A sequence of positions that luaV_execute may take within one call of the function. */
  ghost predicate IsPath(f: Proto, path: seq<int>) {
    && (path != [] ==> path[0] == 0)
    && forall n :: 0 <= n < |path| - 1 ==> 0 <= path[n] < |f.code| && path[n+1] in Targets(f, path[n])
  }

  // ---- What valid code is, opcode by opcode ------------------------------------------------

  /** A register number, and a number that may be a register or, from 256 on, a constant. */
  predicate IsRegister(f: Proto, r: int) { 0 <= r < f.maxstacksize }

  predicate IsRK(f: Proto, x: nat) { if x < 256 then IsRegister(f, x) else x - 256 < |f.k| }

  /** All operands of the instruction at pc exist, and the fields it does not use are zero. */
  predicate OperandsExist(f: Proto, pc: nat)
    requires pc < |f.code|
  {
    var i := f.code[pc];
    var op, a, b, c, bx := GetOpcode(i), ArgA(i), ArgB(i), ArgC(i), ArgBx(i);
    && IsRegister(f, a)
    && if op in {OP_MOVE, OP_LOADNIL, OP_UNM, OP_NOT, OP_LEN} then IsRegister(f, b) && c == 0
       else if op == OP_LOADK then bx < |f.k|
       else if op in {OP_LOADBOOL, OP_NEWTABLE, OP_JMP} then true
       else if op in {OP_GETUPVAL, OP_SETUPVAL} then b < f.nups && c == 0
       else if op in {OP_GETGLOBAL, OP_SETGLOBAL} then bx < |f.k| && f.k[bx].KStr?
       else if op == OP_GETTABLE then IsRegister(f, b) && IsRK(f, c)
       else if op == OP_SELF then IsRegister(f, a + 1) && IsRegister(f, b) && IsRK(f, c)
       else if op in {OP_SETTABLE, OP_ADD, OP_SUB, OP_MUL, OP_DIV, OP_MOD, OP_POW, OP_EQ, OP_LT, OP_LE} then IsRK(f, b) && IsRK(f, c)
       else if op == OP_CONCAT then IsRegister(f, b) && IsRegister(f, c) && b < c
       else if op in {OP_TEST, OP_TESTSET} then IsRegister(f, b)
       else if op in {OP_CALL, OP_TAILCALL} then (b > 0 ==> IsRegister(f, a + b - 1)) && (c > 1 ==> IsRegister(f, a + c - 2))
       else if op == OP_RETURN then (b > 1 ==> IsRegister(f, a + b - 2)) && c == 0
       else if op in {OP_FORLOOP, OP_FORPREP} then IsRegister(f, a + 3)
       else if op == OP_TFORLOOP then b == 0 && c > 0 && IsRegister(f, a + 2 + c)
       else if op == OP_SETLIST then b > 0 ==> IsRegister(f, a + b)
       else if op == OP_CLOSE then b == 0 && c == 0
       else if op == OP_CLOSURE then bx < |f.p|
       else if op == OP_VARARG then
         c == 0 && Flag(f.isVararg, VARARG_ISVARARG) && !Flag(f.isVararg, VARARG_NEEDSARG) && (a + b >= 2 ==> IsRegister(f, a + b - 2))
       else false
  }

  /** The instruction at pc, which is not the last one, has the words behind it that go with it: a
      test has a jump; what leaves an open number of results has something that takes them; a
      CLOSURE has a word for each upvalue. */
  predicate Followed(f: Proto, pc: nat)
    requires pc + 1 < |f.code|
  {
    var i, next := f.code[pc], f.code[pc+1];
    var op := GetOpcode(i);
    && (op in {OP_EQ, OP_LT, OP_LE, OP_TEST, OP_TESTSET, OP_TFORLOOP} ==> GetOpcode(next) == OP_JMP)
    && ((op in {OP_CALL, OP_TAILCALL} && ArgC(i) == 0) || (op == OP_VARARG && ArgB(i) == 0) ==>
          GetOpcode(next) in {OP_CALL, OP_TAILCALL, OP_RETURN, OP_SETLIST} && ArgB(next) == 0)
    && (op == OP_CLOSURE && ArgBx(i) < |f.p| ==>
          pc + f.p[ArgBx(i)].nups < |f.code| && forall q :: pc < q <= pc + f.p[ArgBx(i)].nups ==> GetOpcode(f.code[q]) in {OP_GETUPVAL, OP_MOVE})
  }

  /** Valid code: it ends with a RETURN, its frame is big enough, the operands of every instruction
      exist, every instruction has the words that go with it, and wherever execution goes from it
      there is an instruction, forward or backward. */
  ghost predicate WellMade(f: Proto) {
    && f.maxstacksize <= 250 && f.numparams + f.isVararg % 2 <= f.maxstacksize && (Flag(f.isVararg, VARARG_NEEDSARG) ==> f.isVararg % 2 == 1)
    && |f.upvalues| <= f.nups && |f.lineinfo| in {0, |f.code|} && |f.code| > 0 && GetOpcode(f.code[|f.code|-1]) == OP_RETURN
    && forall pc :: 0 <= pc < |f.code| && IsInstr(f.code, pc) ==>
         OperandsExist(f, pc) && (pc + 1 < |f.code| ==> Followed(f, pc)) && (Lands(f, pc) || OddSkip(f.code[pc]))
  }

  // ---- The checker -------------------------------------------------------------------------

  /** What precheck asks of the prototype as a whole. */
  predicate FrameOk(f: Proto) {
    && f.maxstacksize <= MAXSTACK
    && f.numparams + (if Flag(f.isVararg, VARARG_HASARG) then 1 else 0) <= f.maxstacksize
    && (Flag(f.isVararg, VARARG_NEEDSARG) ==> Flag(f.isVararg, VARARG_HASARG))
    && |f.upvalues| <= f.nups && (|f.lineinfo| == |f.code| || |f.lineinfo| == 0)
    && |f.code| > 0 && Op(f.code, |f.code| - 1) == OP_RETURN
  }

  method Precheck(f: Proto) returns (ok: bool)
    ensures ok == FrameOk(f)
  {
    if !(f.maxstacksize <= MAXSTACK) { return false; }
    if !(f.numparams + (if Flag(f.isVararg, VARARG_HASARG) then 1 else 0) <= f.maxstacksize) { return false; }
    if !(!Flag(f.isVararg, VARARG_NEEDSARG) || Flag(f.isVararg, VARARG_HASARG)) { return false; }
    if !(|f.upvalues| <= f.nups) { return false; }
    if !(|f.lineinfo| == |f.code| || |f.lineinfo| == 0) { return false; }
    return |f.code| > 0 && Op(f.code, |f.code| - 1) == OP_RETURN;
  }

  /** luaG_checkopenop. */
  function CheckOpenOp(i: Word): bool {
    var op := GetOpcode(i);
    (op == OP_CALL || op == OP_TAILCALL || op == OP_RETURN || op == OP_SETLIST) && ArgB(i) == 0
  }

  function CheckArgMode(f: Proto, r: nat, mode: ArgMode): bool {
    match mode
    case NotUsed => r == 0
    case Used => true
    case RegOrJump => r < f.maxstacksize
    case RegOrConst => if r >= 256 then r - 256 < |f.k| else r < f.maxstacksize
  }

  /** The check that a jump does not lead to the count of a SETLIST: the words before `dest` that
      look like an open SETLIST are counted backwards, as any of them may be a count itself. */
  method CheckDest(code: seq<Word>, dest: nat) returns (ok: bool)
    requires dest <= |code|
    ensures ok <==> IsInstr(code, dest)
  {
    var j := 0;
    while j < dest && OpenSetlist(code[dest-1-j])
      invariant 0 <= j <= dest && forall q :: dest - j <= q < dest ==> OpenSetlist(code[q])
    {
      j := j + 1;
    }
    Parity(code, dest, j);
    return j % 2 == 0;
  }

  /** Behind a word that does not look like an open SETLIST there is an instruction, and then every
      second word of those that do is one. */
  lemma {:induction false} Parity(code: seq<Word>, dest: nat, j: nat)
    requires j <= dest <= |code| && forall q :: dest - j <= q < dest ==> OpenSetlist(code[q])
    requires j < dest ==> !OpenSetlist(code[dest-1-j])
    ensures IsInstr(code, dest) <==> j % 2 == 0
    decreases j
  {
    if j > 0 { Parity(code, dest - 1, j - 1); }
  }

  /** What the checks of one instruction say about where execution goes on. */
  ghost predicate Checked(f: Proto, pc: nat)
    requires pc < |f.code|
  {
    var i := f.code[pc];
    var op := GetOpcode(i);
    && (ModeOf(op).format.AsBx? ==> 0 <= pc + 1 + ArgSBx(i) < |f.code| && IsInstr(f.code, pc + 1 + ArgSBx(i)))
    && (ModeOf(op).test ==> pc + 2 < |f.code| && Op(f.code, pc + 1) == OP_JMP)
    && (op == OP_LOADBOOL && ArgC(i) == 1 ==> pc + 2 < |f.code| && !OpenSetlist(f.code[pc+1]))
    && (OpenSetlist(i) ==> pc + 2 < |f.code|)
    && (op == OP_CLOSURE ==> ArgBx(i) < |f.p| && Pseudo(f.code, pc, f.p[ArgBx(i)].nups))
  }

  /** The arguments of the instruction at pc are as its format asks. */
  predicate ArgsOk(f: Proto, pc: nat)
    requires pc < |f.code|
  {
    var i := f.code[pc];
    var mode := ModeOf(GetOpcode(i));
    match mode.format
    case ABC => CheckArgMode(f, ArgB(i), mode.b) && CheckArgMode(f, ArgC(i), mode.c)
    case ABx => mode.b.RegOrConst? ==> ArgBx(i) < |f.k|
    case AsBx => 0 <= pc + 1 + ArgSBx(i) < |f.code| && IsInstr(f.code, pc + 1 + ArgSBx(i))
  }

  /** What is asked of single opcodes besides. */
  predicate OpcodeOk(f: Proto, pc: nat)
    requires pc < |f.code| && (pc == |f.code| - 1 ==> Op(f.code, pc) == OP_RETURN) && ArgsOk(f, pc)
  {
    var i := f.code[pc];
    var op, a, b, c, bx, max := GetOpcode(i), ArgA(i), ArgB(i), ArgC(i), ArgBx(i), f.maxstacksize;
    && (op == OP_LOADBOOL && c == 1 ==> pc + 2 < |f.code| && !OpenSetlist(f.code[pc+1]))
    && (op == OP_GETUPVAL || op == OP_SETUPVAL ==> b < f.nups)
    && (op == OP_GETGLOBAL || op == OP_SETGLOBAL ==> f.k[bx].KStr?)
    && (op == OP_SELF ==> a + 1 < max)
    && (op == OP_CONCAT ==> b < c)
    && (op == OP_TFORLOOP ==> c >= 1 && a + 2 + c < max)
    && (op == OP_FORLOOP || op == OP_FORPREP ==> a + 3 < max)
    && (op == OP_CALL || op == OP_TAILCALL ==>
          (b != 0 ==> a + b - 1 < max) && (c == 0 ==> CheckOpenOp(f.code[pc+1])) && (c > 1 ==> a + c - 2 < max))
    && (op == OP_RETURN && b > 1 ==> a + b - 2 < max)
    && (op == OP_SETLIST ==> (b > 0 ==> a + b < max) && (c == 0 ==> pc + 2 < |f.code|))
    && (op == OP_CLOSURE ==> bx < |f.p| && Pseudo(f.code, pc, f.p[bx].nups))
    && (op == OP_VARARG ==>
          Flag(f.isVararg, VARARG_ISVARARG) && !Flag(f.isVararg, VARARG_NEEDSARG) && (b == 0 ==> CheckOpenOp(f.code[pc+1])) && a + b - 2 < max)
  }

  /** The instruction at pc is valid. */
  predicate InstrOk(f: Proto, pc: nat)
    requires pc < |f.code| && (pc == |f.code| - 1 ==> Op(f.code, pc) == OP_RETURN)
  {
    && Op(f.code, pc) < NUM_OPCODES && ArgA(f.code[pc]) < f.maxstacksize && ArgsOk(f, pc)
    && (ModeOf(Op(f.code, pc)).test ==> pc + 2 < |f.code| && Op(f.code, pc + 1) == OP_JMP)
    && OpcodeOk(f, pc)
  }

  /** The code is valid: all its instructions are, whatever the counts between them look like. */
  ghost predicate Accepts(f: Proto) {
    FrameOk(f) && forall pc :: 0 <= pc < |f.code| && IsInstr(f.code, pc) ==> InstrOk(f, pc)
  }

  lemma OkIsChecked(f: Proto, pc: nat)
    requires pc < |f.code| && (pc == |f.code| - 1 ==> Op(f.code, pc) == OP_RETURN) && InstrOk(f, pc)
    ensures Checked(f, pc)
  {
    hide IsInstr, ArgA, ArgB, ArgC, ArgBx, ArgSBx;
  }

  /** The words behind a CLOSURE that say where its upvalues come from. */
  predicate Pseudo(code: seq<Word>, pc: nat, nup: nat) {
    pc + nup < |code| && forall q :: pc < q <= pc + nup ==> Op(code, q) == OP_GETUPVAL || Op(code, q) == OP_MOVE
  }

  method CheckPseudo(code: seq<Word>, pc: nat, nup: nat) returns (ok: bool)
    ensures ok == Pseudo(code, pc, nup)
  {
    if !(pc + nup < |code|) { return false; }
    var j := 1;
    while j <= nup
      invariant 1 <= j <= nup + 1
      invariant forall q :: pc < q < pc + j ==> Op(code, q) == OP_GETUPVAL || Op(code, q) == OP_MOVE
    {
      var op1 := Op(code, pc + j);
      if !(op1 == OP_GETUPVAL || op1 == OP_MOVE) { return false; }
      j := j + 1;
    }
    return true;
  }

  /** The arguments that the format of the instruction asks for; b is signed for a jump. */
  method CheckArgs(f: Proto, pc: nat) returns (ok: bool, b: int, c: nat)
    requires pc < |f.code|
    ensures ok == ArgsOk(f, pc)
    ensures match ModeOf(Op(f.code, pc)).format
      case ABC => b == ArgB(f.code[pc]) && c == ArgC(f.code[pc])
      case ABx => b == ArgBx(f.code[pc])
      case AsBx => b == ArgSBx(f.code[pc])
  {
    var i := f.code[pc];
    var mode := ModeOf(GetOpcode(i));
    c := 0;
    match mode.format
    case ABC =>
      b, c := ArgB(i), ArgC(i);
      ok := CheckArgMode(f, ArgB(i), mode.b) && CheckArgMode(f, c, mode.c);
    case ABx =>
      b := ArgBx(i);
      ok := mode.b.RegOrConst? ==> b < |f.k|;
    case AsBx =>
      b := ArgSBx(i);
      var dest := pc + 1 + b;
      ok := 0 <= dest < |f.code|;
      if ok && dest > 0 { ok := CheckDest(f.code, dest); }
  }

  /** The body of the loop of symbexec, without a register to trace. `len` is how many words it
      passes, and `last` says whether it marks the instruction as the last that changes registers. */
  method CheckInstr(f: Proto, pc: nat) returns (ok: bool, len: nat, last: bool)
    requires pc < |f.code| && (pc == |f.code| - 1 ==> Op(f.code, pc) == OP_RETURN) && f.maxstacksize <= MAXSTACK
    ensures ok == InstrOk(f, pc)
    ensures ok ==> len == if OpenSetlist(f.code[pc]) then 2 else 1
    ensures last ==> f.code[pc] != 0
  {
    hide IsInstr, ArgA, ArgB, ArgC, ArgBx, ArgSBx, ArgsOk, OpcodeOk;
    var i := f.code[pc];
    var op, a := GetOpcode(i), ArgA(i);
    var mode := ModeOf(op);
    NonZero(i);
    len, last := 1, false;
    if !(op < NUM_OPCODES && a < f.maxstacksize) { return false, len, last; }
    var b, c;
    ok, b, c := CheckArgs(f, pc);
    if !ok { return; }
    if mode.setsA && a == NO_REG { last := true; }
    if mode.test && !(pc + 2 < |f.code| && Op(f.code, pc + 1) == OP_JMP) { return false, len, false; }
    ok, len, last := CheckOpcode(f, pc, b, c, last);
  }

  /** The switch over the opcodes in symbexec. */
  method CheckOpcode(f: Proto, pc: nat, b: int, c: nat, last0: bool) returns (ok: bool, len: nat, last: bool)
    requires pc < |f.code| && (pc == |f.code| - 1 ==> Op(f.code, pc) == OP_RETURN) && ArgsOk(f, pc)
    requires match ModeOf(Op(f.code, pc)).format
      case ABC => b == ArgB(f.code[pc]) && c == ArgC(f.code[pc])
      case ABx => b == ArgBx(f.code[pc])
      case AsBx => b == ArgSBx(f.code[pc])
    requires last0 ==> f.code[pc] != 0
    ensures ok == OpcodeOk(f, pc)
    ensures len == if OpenSetlist(f.code[pc]) then 2 else 1
    ensures last ==> f.code[pc] != 0
  {
    hide IsInstr, ArgA, ArgB, ArgC, ArgBx, ArgSBx, Pseudo, Flag, CheckOpenOp;
    var i := f.code[pc];
    var op, a, max := GetOpcode(i), ArgA(i), f.maxstacksize;
    NonZero(i);
    ok, len, last := true, 1, last0;
    if op == OP_LOADBOOL {
      if c == 1 { ok := pc + 2 < |f.code| && (Op(f.code, pc + 1) != OP_SETLIST || ArgC(f.code[pc+1]) != 0); }
    } else if op == OP_LOADNIL {
      if a <= NO_REG <= b { last := true; }
    } else if op == OP_GETUPVAL || op == OP_SETUPVAL {
      ok := b < f.nups;
    } else if op == OP_GETGLOBAL || op == OP_SETGLOBAL {
      ok := f.k[b].KStr?;
    } else if op == OP_SELF {
      ok := a + 1 < max;
      if NO_REG == a + 1 { last := true; }
    } else if op == OP_CONCAT {
      ok := b < c;
    } else if op == OP_TFORLOOP {
      ok := c >= 1 && a + 2 + c < max;
      if NO_REG >= a + 2 { last := true; }
    } else if op == OP_FORLOOP || op == OP_FORPREP {
      ok := a + 3 < max;
    } else if op == OP_CALL || op == OP_TAILCALL {
      ok := (b != 0 ==> a + b - 1 < max) &&
            (if c == 0 then CheckOpenOp(f.code[pc+1]) else c - 1 != 0 ==> a + (c - 1) - 1 < max);
      last := true;
    } else if op == OP_RETURN {
      ok := b - 1 > 0 ==> a + (b - 1) - 1 < max;
    } else if op == OP_SETLIST {
      ok := b > 0 ==> a + b < max;
      if c == 0 {
        len := 2;
        ok := ok && pc + 1 < |f.code| - 1;
      }
    } else if op == OP_CLOSURE {
      ok := b < |f.p|;
      if ok { ok := CheckPseudo(f.code, pc, f.p[b].nups); }
    } else if op == OP_VARARG {
      ok := Flag(f.isVararg, VARARG_ISVARARG) && !Flag(f.isVararg, VARARG_NEEDSARG) &&
            (b == 0 ==> CheckOpenOp(f.code[pc+1])) && a + (b - 1) - 1 < max;
    }
  }

  lemma NonZero(i: Word)
    ensures GetOpcode(i) != 0 ==> i != 0
    ensures i == 0 ==> ArgA(i) == 0 && ArgB(i) == 0
  {
  }

  /** luaG_checkcode: in accepted code every control transfer from an instruction lands on an
      instruction, except those of a LOADBOOL with an odd C field. */
  method CheckCode(f: Proto) returns (ok: bool)
    ensures ok <==> Accepts(f)
    ensures ok <==> WellMade(f)
    ensures ok ==> |f.code| > 0
    ensures ok ==> forall pc :: 0 <= pc < |f.code| && IsInstr(f.code, pc) && !OddSkip(f.code[pc]) ==> Lands(f, pc)
    ensures ok ==> forall pc :: 0 <= pc < |f.code| && IsInstr(f.code, pc) && OddSkip(f.code[pc]) ==>
              (Lands(f, pc) <==> pc + 2 < |f.code| && !OpenSetlist(f.code[pc+1]))
  {
    hide IsInstr, Targets, Checked, Lands, OddSkip, OpenSetlist, InstrOk, WellMade;
    AcceptsWellMade(f);
    ok := Precheck(f);
    if !ok { return; }
    var last, pc := |f.code| - 1, 0;
    NonZero(f.code[last]);
    FirstIsInstr(f.code);
    while pc < |f.code|
      invariant 0 <= pc <= |f.code| && IsInstr(f.code, pc) && 0 <= last < |f.code| && f.code[last] != 0
      invariant forall q :: 0 <= q < pc && IsInstr(f.code, q) ==> InstrOk(f, q) && Checked(f, q)
    {
      var len, changes;
      ok, len, changes := CheckInstr(f, pc);
      if !ok { return; }
      if changes { last := pc; }
      OkIsChecked(f, pc);
      NextInstr(f, pc);
      pc := pc + len;
    }
    ok := f.code[last] != 0;
    AllLand(f);
  }

  lemma FirstIsInstr(code: seq<Word>)
    ensures IsInstr(code, 0)
  {
  }

  /** The scan goes on at the next instruction. */
  lemma NextInstr(f: Proto, pc: nat)
    requires pc < |f.code| && IsInstr(f.code, pc) && Checked(f, pc)
    ensures var len := if OpenSetlist(f.code[pc]) then 2 else 1;
      pc + len <= |f.code| && IsInstr(f.code, pc + len) && (len == 2 ==> !IsInstr(f.code, pc + 1))
  {
  }

  lemma AllLand(f: Proto)
    requires |f.code| > 0 && Op(f.code, |f.code| - 1) == OP_RETURN
    requires forall q :: 0 <= q < |f.code| && IsInstr(f.code, q) ==> Checked(f, q)
    ensures forall pc :: 0 <= pc < |f.code| && IsInstr(f.code, pc) && !OddSkip(f.code[pc]) ==> Lands(f, pc)
    ensures forall pc :: 0 <= pc < |f.code| && IsInstr(f.code, pc) && OddSkip(f.code[pc]) ==>
              (Lands(f, pc) <==> pc + 2 < |f.code| && !OpenSetlist(f.code[pc+1]))
  {
    hide Lands, Checked, IsInstr, OddSkip, OpenSetlist;
    forall pc | 0 <= pc < |f.code| && IsInstr(f.code, pc) && !OddSkip(f.code[pc]) ensures Lands(f, pc) { OneLands(f, pc); }
    forall pc | 0 <= pc < |f.code| && IsInstr(f.code, pc) && OddSkip(f.code[pc])
      ensures Lands(f, pc) <==> pc + 2 < |f.code| && !OpenSetlist(f.code[pc+1])
    {
      OneLands(f, pc);
    }
  }

  lemma OneLands(f: Proto, pc: nat)
    requires pc < |f.code| && IsInstr(f.code, pc) && Op(f.code, |f.code| - 1) == OP_RETURN
    requires forall q :: 0 <= q < |f.code| && IsInstr(f.code, q) ==> Checked(f, q)
    ensures Lands(f, pc) <==> (OddSkip(f.code[pc]) ==> pc + 2 < |f.code| && !OpenSetlist(f.code[pc+1]))
  {
    hide ArgA, ArgB, ArgC, ArgBx, ArgSBx;
    var i := f.code[pc];
    var op := GetOpcode(i);
    assert Checked(f, pc);
    NextInstr(f, pc);
    if ModeOf(op).test {
      assert IsInstr(f.code, pc + 1) && Checked(f, pc + 1);
    } else if op == OP_CLOSURE {
      PseudoInstrs(f.code, pc, f.p[ArgBx(i)].nups);
    } else if op == OP_LOADBOOL {
      LoadBoolLands(f, pc);
    }
  }

  /** The words behind a CLOSURE are instructions of their own for the checker. */
  lemma {:induction false} PseudoInstrs(code: seq<Word>, pc: nat, nup: nat)
    requires pc < |code| && IsInstr(code, pc) && Op(code, pc) == OP_CLOSURE && Pseudo(code, pc, nup) && Op(code, |code| - 1) == OP_RETURN
    ensures pc + nup + 1 < |code| && IsInstr(code, pc + nup + 1)
  {
    if nup > 0 { PseudoInstrs(code, pc, nup - 1); }
    assert Op(code, pc + nup) != OP_SETLIST;
  }

  lemma LoadBoolLands(f: Proto, pc: nat)
    requires pc < |f.code| && IsInstr(f.code, pc) && Op(f.code, pc) == OP_LOADBOOL && Checked(f, pc) && Op(f.code, |f.code| - 1) == OP_RETURN
    ensures Lands(f, pc) <==> (OddSkip(f.code[pc]) ==> pc + 2 < |f.code| && !OpenSetlist(f.code[pc+1]))
  {
    hide ArgC;
    assert pc + 1 < |f.code| && IsInstr(f.code, pc + 1);
    if ArgC(f.code[pc]) != 0 && pc + 2 <= |f.code| {
      assert IsInstr(f.code, pc + 2) == !OpenSetlist(f.code[pc+1]);
      assert pc + 2 in Targets(f, pc);
    }
  }

  /** Accepted code without odd LOADBOOLs: whatever way execution takes, it stays on instructions
      and never reaches the count of a SETLIST or a place outside of the code. */
  lemma {:induction false} PathStays(f: Proto, path: seq<int>, n: nat)
    requires |f.code| > 0 && IsPath(f, path) && n < |path|
    requires forall pc :: 0 <= pc < |f.code| && IsInstr(f.code, pc) ==> Lands(f, pc)
    ensures 0 <= path[n] < |f.code| && IsInstr(f.code, path[n])
  {
    if n > 0 {
      PathStays(f, path, n - 1);
      assert path[n] in Targets(f, path[n-1]);
    }
  }

  /** Where the jumps of a word lead, by its bits: the opcode in the lowest six, the offset in excess
      0x1FFFF from bit 14 on, counted from the next instruction. */
  lemma JumpReaches(f: Proto, pc: nat, a: nat, dest: int, op: nat)
    requires pc < |f.code| && a <= 0xFF && 0 <= dest - pc - 1 + 0x1FFFF <= 0x3FFFF && op < 0x40
    requires f.code[pc] == op + 0x40 * a + 0x4000 * (dest - pc - 1 + 0x1FFFF)
    ensures op == 22 || op == 32 ==> Targets(f, pc) == {dest}
    ensures op == 31 ==> Targets(f, pc) == {pc + 1, dest}
  {
    FieldsABx(op, a, dest - pc - 1 + 0x1FFFF);
    assert f.code[pc] == CreateABx(op, a, dest - pc - 1 + 0x1FFFF);
  }

  /** `while true do end`, a jump to itself, is accepted. */
  lemma EmptyLoop(f: Proto)
    requires f.code == [0x7FFF8016, 0x0080001E] && |f.lineinfo| in {0, 2} && |f.upvalues| <= f.nups
    requires f.numparams + f.isVararg % 2 <= f.maxstacksize <= 250 && f.maxstacksize > 0 && (Flag(f.isVararg, VARARG_NEEDSARG) ==> f.isVararg % 2 == 1)
    ensures Targets(f, 0) == {0} && WellMade(f) && Accepts(f)
  {
    JumpReaches(f, 0, 0, 0, 22);
    AcceptsWellMade(f);
    forall pc | 0 <= pc < |f.code| && IsInstr(f.code, pc)
      ensures OperandsExist(f, pc) && (pc + 1 < |f.code| ==> Followed(f, pc)) && Lands(f, pc)
    {
    }
  }

  // ---- Acceptance and valid code -----------------------------------------------------------

  /** The conditions of the checker on an instruction, apart from where execution goes. */
  lemma OperandsChecked(f: Proto, pc: nat)
    requires pc < |f.code| && (pc == |f.code| - 1 ==> Op(f.code, pc) == OP_RETURN) && f.maxstacksize <= MAXSTACK
    ensures InstrOk(f, pc) ==> OperandsExist(f, pc) && (pc + 1 < |f.code| ==> Followed(f, pc))
    ensures OperandsExist(f, pc) && (pc + 1 < |f.code| ==> Followed(f, pc)) && Checked(f, pc) ==> InstrOk(f, pc)
  {
    hide IsInstr, ArgA, ArgB, ArgC, ArgBx, ArgSBx, Flag;
    if ArgBx(f.code[pc]) < |f.p| { PseudoFollowed(f.code, pc, f.p[ArgBx(f.code[pc])].nups); }
    hide Pseudo;
  }

  lemma PseudoFollowed(code: seq<Word>, pc: nat, nup: nat)
    ensures Pseudo(code, pc, nup) <==> pc + nup < |code| && forall q :: pc < q <= pc + nup ==> GetOpcode(code[q]) in {OP_GETUPVAL, OP_MOVE}
  {
    if pc + nup < |code| {
      forall q | pc < q <= pc + nup ensures Op(code, q) == GetOpcode(code[q]) { }
    }
  }

  /** What the checker asks of an instruction about where execution goes, if its companions are there. */
  lemma LandsChecked(f: Proto, pc: nat)
    requires pc < |f.code| && IsInstr(f.code, pc) && Op(f.code, |f.code| - 1) == OP_RETURN && OperandsExist(f, pc)
    requires pc + 1 < |f.code| ==> Followed(f, pc)
    requires Lands(f, pc) || OddSkip(f.code[pc])
    ensures Checked(f, pc)
  {
    hide IsInstr, ArgA, ArgB, ArgC, ArgBx, ArgSBx, Flag;
    var i := f.code[pc];
    var op := GetOpcode(i);
    if ModeOf(op).format.AsBx? {
      assert pc + 1 + ArgSBx(i) in Targets(f, pc);
    } else if ModeOf(op).test || (op == OP_LOADBOOL && ArgC(i) == 1) || OpenSetlist(i) {
      assert pc + 2 in Targets(f, pc);
    }
    if op == OP_LOADBOOL && ArgC(i) == 1 { SkipLands(f.code, pc); }
    if op == OP_CLOSURE { PseudoFollowed(f.code, pc, f.p[ArgBx(i)].nups); }
  }

  lemma SkipLands(code: seq<Word>, pc: nat)
    requires pc + 2 < |code| && IsInstr(code, pc) && IsInstr(code, pc + 2) && !OpenSetlist(code[pc])
    ensures !OpenSetlist(code[pc+1])
  {
  }

  lemma AcceptsWellMade(f: Proto)
    ensures Accepts(f) <==> WellMade(f)
  {
    hide InstrOk, Checked, OperandsExist, Followed, Lands, OddSkip, IsInstr;
    if Accepts(f) {
      forall pc | 0 <= pc < |f.code| && IsInstr(f.code, pc) ensures Checked(f, pc) { OkIsChecked(f, pc); }
      AllLand(f);
      forall pc | 0 <= pc < |f.code| && IsInstr(f.code, pc)
        ensures OperandsExist(f, pc) && (pc + 1 < |f.code| ==> Followed(f, pc)) && (Lands(f, pc) || OddSkip(f.code[pc]))
      {
        OperandsChecked(f, pc);
      }
    }
    if WellMade(f) {
      forall pc | 0 <= pc < |f.code| && IsInstr(f.code, pc) ensures InstrOk(f, pc) {
        LandsChecked(f, pc);
        OperandsChecked(f, pc);
      }
    }
  }
}
