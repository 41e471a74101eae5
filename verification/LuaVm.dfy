/** Values, the instructions expressions compile to, and what luaV_execute does with them. */
module LuaVm {

  datatype Option<+T> = None | Some(value: T)

  /** A Lua value; a number stands for any lua_Number, `Other` for strings, tables and so on. */
  datatype Val = Nil | Bool(b: bool) | Num(n: int) | Other(id: int)

  predicate Falsy(v: Val) { v == Nil || v == Bool(false) }

  datatype ArithOp = Add | Sub | Mul | Div | Mod | Pow
  datatype UnaryOp = Unm | Not | Len
  datatype CmpOp = Eq | Lt | Le

  /** What the language leaves to the number type and to metamethods; None is a runtime error. */
  datatype Semantics = Semantics(
    num: (ArithOp, int, int) -> int,
    neg: int -> int,
    isNan: int -> bool,
    metaArith: (ArithOp, Val, Val) -> Option<Val>,
    metaNeg: Val -> Option<Val>,
    len: Val -> Option<Val>,
    cmp: (CmpOp, Val, Val) -> Option<bool>)

  function Arith(m: Semantics, op: ArithOp, v: Val, w: Val): Option<Val> {
    if v.Num? && w.Num? then Some(Num(m.num(op, v.n, w.n))) else m.metaArith(op, v, w)
  }

  function Unary(m: Semantics, op: UnaryOp, v: Val): Option<Val> {
    match op
    case Unm => if v.Num? then Some(Num(m.neg(v.n))) else m.metaNeg(v)
    case Not => Some(Bool(Falsy(v)))
    case Len => m.len(v)
  }

  /** An RK operand: a register or a constant. */
  datatype RK = R(r: nat) | K(i: nat)

  datatype Instr =
    | Move(a: nat, b: nat)
    | LoadK(a: nat, bx: nat)
    | LoadBool(a: nat, value: bool, skip: bool)
    | LoadNil(a: nat, last: nat)
    | ArithI(op: ArithOp, a: nat, rb: RK, rc: RK)
    | UnaryI(uop: UnaryOp, a: nat, b: nat)
    | Compare(cop: CmpOp, cond: bool, rb: RK, rc: RK)
    | Test(a: nat, c: bool)
    | TestSet(a: nat, b: nat, c: bool)
    | Jmp(sbx: int)
    | Otherwise

  /** testTMode: instructions that skip the jump that follows them. */
  predicate IsTest(i: Instr) { i.Compare? || i.Test? || i.TestSet? }

  type Regs = map<nat, Val>

  function Get(s: Regs, r: nat): Val { if r in s then s[r] else Nil }

  function GetRK(k: seq<Val>, s: Regs, x: RK): Val {
    match x
    case R(r) => Get(s, r)
    case K(i) => if i < |k| then k[i] else Nil
  }

  /** The value an instruction that only sets R(A) computes; None is a runtime error. */
  function ValueOf(m: Semantics, k: seq<Val>, i: Instr, s: Regs): Option<Val> {
    match i
    case Move(_, b) => Some(Get(s, b))
    case LoadK(_, bx) => Some(GetRK(k, s, K(bx)))
    case LoadBool(_, b, _) => Some(Bool(b))
    case ArithI(op, _, b, c) => Arith(m, op, GetRK(k, s, b), GetRK(k, s, c))
    case UnaryI(op, _, b) => Unary(m, op, Get(s, b))
    case _ => None
  }

  /** A run of a piece of code stops at its end, at a jump whose target is still open, or with an error. */
  datatype Outcome = Fall(s: Regs) | Exit(j: nat, s: Regs) | Fail | Stuck

  /** Everything a run depends on but the registers. `open` holds the jumps without a target. */
  datatype Code = Code(m: Semantics, k: seq<Val>, at: seq<Instr>, open: set<nat>)

  function SetNils(s: Regs, a: nat, last: nat): Regs
    decreases if last < a then 0 else last - a + 1
  {
    if a > last then s else SetNils(s[a := Nil], a + 1, last)
  }

  /** One instruction: where execution goes on and with which registers, or how it stops. */
  datatype Step = Next(pc: nat, s: Regs) | Halt(o: Outcome)

  /** The jump at j, taken from pc with registers s; an open jump stops the run. */
  function JumpFrom(c: Code, pc: nat, j: nat, end: nat, s: Regs): Step
    requires pc <= j < end <= |c.at| && c.at[j].Jmp?
  {
    var dest := j + 1 + c.at[j].sbx;
    if pc < dest <= end then Next(dest, s) else Halt(Stuck)
  }

  /** A test at pc takes the jump behind it or skips it. A TESTSET copies its register only when
      the jump has a target. */
  function TestAt(c: Code, pc: nat, end: nat, s: Regs, taken: bool): Step
    requires pc < end <= |c.at|
  {
    var j := pc + 1;
    if j >= end || !c.at[j].Jmp? then Halt(Stuck)
    else if !taken then Next(pc + 2, s)
    else if j in c.open then Halt(Exit(j, s))
    else JumpFrom(c, pc, j, end, if c.at[pc].TestSet? then s[c.at[pc].a := Get(s, c.at[pc].b)] else s)
  }

  /** A jump on its own. That no run reaches the jump of a test without its test is part of what
      is proved: here such a run is stuck. */
  function JumpAt(c: Code, pc: nat, end: nat, s: Regs): Step
    requires pc < end <= |c.at| && c.at[pc].Jmp?
  {
    if pc > 0 && IsTest(c.at[pc-1]) then Halt(Stuck)
    else if pc in c.open then Halt(Exit(pc, s))
    else JumpFrom(c, pc, pc, end, s)
  }

  /** The body of the loop of luaV_execute. */
  function StepAt(c: Code, pc: nat, end: nat, s: Regs): (r: Step)
    requires pc < end <= |c.at|
    ensures r.Next? ==> pc < r.pc
  {
    match c.at[pc]
    case Jmp(_) => JumpAt(c, pc, end, s)
    case Test(a, x) => TestAt(c, pc, end, s, Falsy(Get(s, a)) != x)
    case TestSet(_, b, x) => TestAt(c, pc, end, s, Falsy(Get(s, b)) != x)
    case Compare(op, x, b, d) =>
      var r := c.m.cmp(op, GetRK(c.k, s, b), GetRK(c.k, s, d));
      if r.None? then Halt(Fail) else TestAt(c, pc, end, s, r.value == x)
    case LoadBool(a, b, skip) => Next(if skip then pc + 2 else pc + 1, s[a := Bool(b)])
    case LoadNil(a, last) => Next(pc + 1, SetNils(s, a, last))
    case Otherwise => Halt(Stuck)
    case i =>
      var v := ValueOf(c.m, c.k, i, s);
      if v.None? then Halt(Fail) else Next(pc + 1, s[i.a := v.value])
  }

  /** luaV_execute from pc until `end`. The jumps of expressions go forward only. */
  function Exec(c: Code, pc: nat, end: nat, s: Regs): Outcome
    requires end <= |c.at|
    decreases end - pc
  {
    if pc == end then Fall(s)
    else if pc > end then Stuck
    else match StepAt(c, pc, end, s)
      case Halt(o) => o
      case Next(pc', s') => Exec(c, pc', end, s')
  }

  // ---- What the instructions do ------------------------------------------------------------

  /** OP_MOVE, OP_LOADK, OP_LOADBOOL and OP_LOADNIL. */
  lemma LoadMeaning(c: Code, pc: nat, end: nat, s: Regs)
    requires pc < end <= |c.at|
    ensures match c.at[pc]
      case Move(a, b) => Exec(c, pc, end, s) == Exec(c, pc + 1, end, s[a := if b in s then s[b] else Nil])
      case LoadK(a, bx) => bx < |c.k| ==> Exec(c, pc, end, s) == Exec(c, pc + 1, end, s[a := c.k[bx]])
      case LoadBool(a, b, skip) => Exec(c, pc, end, s) == Exec(c, if skip then pc + 2 else pc + 1, end, s[a := Bool(b)])
      case LoadNil(a, last) =>
        Exec(c, pc, end, s) == Exec(c, pc + 1, end, SetNils(s, a, last)) &&
        forall r: nat :: Get(SetNils(s, a, last), r) == if a <= r <= last then Nil else Get(s, r)
      case _ => true
  {
    if c.at[pc].LoadNil? {
      NilsSet(s, c.at[pc].a, c.at[pc].last);
    }
  }

  lemma {:induction false} NilsSet(s: Regs, a: nat, last: nat)
    ensures forall r: nat :: Get(SetNils(s, a, last), r) == if a <= r <= last then Nil else Get(s, r)
    decreases if last < a then 0 else last - a + 1
  {
    if a <= last {
      NilsSet(s[a := Nil], a + 1, last);
      assert forall r: nat :: Get(s[a := Nil], r) == if r == a then Nil else Get(s, r);
    }
  }

  /** The operand an RK field stands for. */
  lemma OperandMeaning(k: seq<Val>, s: Regs, i: nat)
    ensures GetRK(k, s, R(i)) == Get(s, i) == if i in s then s[i] else Nil
    ensures i < |k| ==> GetRK(k, s, K(i)) == k[i]
  {
  }

  /** The arithmetic instructions work on R(B) or K(B) first, then on R(C) or K(C). */
  lemma OperatorMeaning(c: Code, pc: nat, end: nat, s: Regs)
    requires pc < end <= |c.at|
    ensures match c.at[pc]
      case ArithI(op, a, b, d) =>
        var v, w := GetRK(c.k, s, b), GetRK(c.k, s, d);
        var r := if v.Num? && w.Num? then Some(Num(c.m.num(op, v.n, w.n))) else c.m.metaArith(op, v, w);
        Exec(c, pc, end, s) == if r.None? then Fail else Exec(c, pc + 1, end, s[a := r.value])
      case UnaryI(op, a, b) =>
        var v := if b in s then s[b] else Nil;
        var r := if op.Not? then Some(Bool(v == Nil || v == Bool(false))) else if op.Len? then c.m.len(v)
                 else if v.Num? then Some(Num(c.m.neg(v.n))) else c.m.metaNeg(v);
        Exec(c, pc, end, s) == if r.None? then Fail else Exec(c, pc + 1, end, s[a := r.value])
      case _ => true
  {
  }

  /** The tests: the jump behind is taken if the comparison gives A, or the register is true
      exactly if C is; a TESTSET whose jump is taken copies its register. */
  lemma TestMeaning(c: Code, pc: nat, end: nat, s: Regs)
    requires pc + 1 < end <= |c.at| && c.at[pc+1].Jmp? && pc + 1 !in c.open && pc + 1 < pc + 2 + c.at[pc+1].sbx <= end
    ensures var dest := pc + 2 + c.at[pc+1].sbx;
      match c.at[pc]
      case Compare(op, x, b, d) =>
        var r := c.m.cmp(op, GetRK(c.k, s, b), GetRK(c.k, s, d));
        Exec(c, pc, end, s) == if r.None? then Fail else if r == Some(x) then Exec(c, dest, end, s) else Exec(c, pc + 2, end, s)
      case Test(a, x) =>
        var v := if a in s then s[a] else Nil;
        Exec(c, pc, end, s) == if (v != Nil && v != Bool(false)) == x then Exec(c, dest, end, s) else Exec(c, pc + 2, end, s)
      case TestSet(a, b, x) =>
        var v := if b in s then s[b] else Nil;
        Exec(c, pc, end, s) == if (v != Nil && v != Bool(false)) == x then Exec(c, dest, end, s[a := v]) else Exec(c, pc + 2, end, s)
      case _ => true
  {
  }

  // ---- How runs depend on the code ---------------------------------------------------------

  /** All constants that i uses are below n. */
  predicate KOk(i: Instr, n: nat) {
    match i
    case LoadK(_, bx) => bx < n
    case ArithI(_, _, b, c) => (b.K? ==> b.i < n) && (c.K? ==> c.i < n)
    case Compare(_, _, b, c) => (b.K? ==> b.i < n) && (c.K? ==> c.i < n)
    case _ => true
  }

  /** A run to `end` that passes p1 is a run to p1 followed by one from there. */
  lemma {:induction false} ExecSplit(c: Code, pc: nat, p1: nat, end: nat, s: Regs)
    requires p1 <= end <= |c.at| && pc <= p1 && !Exec(c, pc, p1, s).Stuck?
    ensures Exec(c, pc, end, s) == (match Exec(c, pc, p1, s) case Fall(t) => Exec(c, p1, end, t) case o => o)
    decreases p1 - pc
  {
    if pc < p1 {
      var r := StepAt(c, pc, p1, s);
      StepLonger(c, pc, p1, end, s);
      hide StepAt;
      if r.Next? { ExecSplit(c, r.pc, p1, end, r.s); }
    }
  }

  lemma StepLonger(c: Code, pc: nat, p1: nat, end: nat, s: Regs)
    requires pc < p1 <= end <= |c.at| && StepAt(c, pc, p1, s) != Halt(Stuck)
    ensures StepAt(c, pc, end, s) == StepAt(c, pc, p1, s)
  {
    hide SetNils, Arith, Unary, Get;
  }

  /** A run stops at an open jump of its code. */
  lemma {:induction false} ExitIsOpen(c: Code, pc: nat, end: nat, s: Regs)
    requires end <= |c.at|
    ensures var o := Exec(c, pc, end, s); o.Exit? ==> pc <= o.j < end && o.j in c.open && c.at[o.j].Jmp?
    decreases end - pc
  {
    if pc < end {
      var r := StepAt(c, pc, end, s);
      StepExit(c, pc, end, s);
      hide StepAt;
      if r.Next? { ExitIsOpen(c, r.pc, end, r.s); }
    }
  }

  lemma StepExit(c: Code, pc: nat, end: nat, s: Regs)
    requires pc < end <= |c.at|
    ensures var r := StepAt(c, pc, end, s); r.Halt? && r.o.Exit? ==> pc <= r.o.j < end && r.o.j in c.open && c.at[r.o.j].Jmp?
    ensures StepAt(c, pc, end, s).Halt? ==> !StepAt(c, pc, end, s).o.Fall?
  {
    hide SetNils, Arith, Unary, Get;
  }

  // ---- Giving open jumps their targets -----------------------------------------------------

  /** patchtestreg on the instruction before a jump: no register means that no value is wanted. */
  function PatchTest(i: Instr, reg: Option<nat>): Instr {
    if !i.TestSet? then i
    else if reg.Some? && reg.value != i.b then TestSet(reg.value, i.b, i.c)
    else Test(i.b, i.c)
  }

  /** getjumpcontrol finds a TESTSET. */
  predicate YieldsValue(code: seq<Instr>, j: nat) {
    0 < j <= |code| && code[j-1].TestSet?
  }

  /** The same target for every jump. */
  function To(target: int): nat -> int { _ => target }

  /** patchlistaux for the jumps in l: those that yield a value go to vt, the others to their dt. */
  function Patched(code: seq<Instr>, l: set<nat>, vt: int, reg: Option<nat>, dt: nat -> int): (r: seq<Instr>)
    ensures |r| == |code|
    ensures forall q :: 0 <= q < |code| ==> r[q] == PatchCell(code, l, vt, reg, dt, q)
  {
    seq(|code|, (q: nat) requires q < |code| => PatchCell(code, l, vt, reg, dt, q))
  }

  function PatchCell(code: seq<Instr>, l: set<nat>, vt: int, reg: Option<nat>, dt: nat -> int, q: nat): Instr
    requires q < |code|
  {
    if q in l then Jmp((if YieldsValue(code, q) then vt else dt(q)) - (q + 1))
    else if q + 1 in l then PatchTest(code[q], reg)
    else code[q]
  }

  /** dischargejpc: the jumps of l lead to the end of the code and yield no value. */
  function Here(code: seq<Instr>, l: set<nat>): (r: seq<Instr>)
    ensures |r| == |code|
    ensures forall q :: 0 <= q < |code| ==> r[q] == PatchCell(code, l, |code|, None, To(|code|), q)
  {
    Patched(code, l, |code|, None, To(|code|))
  }

  /** Where the jump at j of patched code leads, and with which registers. */
  function Landing(d: Code, j: nat): int
    requires j < |d.at| && d.at[j].Jmp?
  {
    j + 1 + d.at[j].sbx
  }

  function LandRegs(d: Code, j: nat, s: Regs): Regs
    requires j < |d.at|
  {
    if YieldsValue(d.at, j) then s[d.at[j-1].a := Get(s, d.at[j-1].b)] else s
  }

  ghost predicate CellOk(c: Code, d: Code, l: set<nat>, vt: int, reg: Option<nat>, dt: nat -> int, q: nat)
    requires q < |c.at| && q < |d.at|
  {
    || d.at[q] == PatchCell(c.at, l, vt, reg, dt, q)
    || (q in d.open && c.at[q].Jmp? && d.at[q].Jmp?)
    || (q + 1 in d.open && c.at[q].TestSet? && d.at[q] == PatchTest(c.at[q], None))
  }

  /** From p0 to end, d is c with the jumps of l patched, all of them to end or beyond. Jumps that
      are open in both may be threaded differently and may have lost their value, and d may have
      more constants. */
  ghost predicate Resolved(c: Code, d: Code, l: set<nat>, vt: int, reg: Option<nat>, dt: nat -> int, p0: nat, end: nat) {
    && c.m == d.m && p0 <= end <= |c.at| && end <= |d.at| && c.k <= d.k
    && (forall q :: p0 <= q < end ==> KOk(c.at[q], |c.k|))
    && (forall q :: p0 <= q < end ==> (q in d.open <==> q in c.open && q !in l))
    && (forall q :: q in l && p0 <= q < end ==> q in c.open && c.at[q].Jmp?)
    && (forall q :: p0 <= q < end ==> CellOk(c, d, l, vt, reg, dt, q))
    && vt >= end && (forall q :: q in l ==> dt(q) >= end) && (p0 > 0 ==> !IsTest(c.at[p0-1]) && !IsTest(d.at[p0-1]))
  }

  /** What becomes of a run to `end` when some open jumps get targets behind `end`. */
  ghost predicate Resumes(d: Code, l: set<nat>, end: nat, last: nat, o: Outcome, o': Outcome)
    requires end <= last <= |d.at|
  {
    match o
    case Fall(t) => o' == Exec(d, end, last, t)
    case Exit(j, t) =>
      if j !in l then o' == o
      else j < |d.at| && d.at[j].Jmp? && Landing(d, j) >= 0 &&
           (Landing(d, j) <= last ==> o' == Exec(d, Landing(d, j), last, LandRegs(d, j, t)))
    case Fail => o' == Fail
    case Stuck => true
  }

  /** The same for a single step. */
  ghost predicate StepResumes(d: Code, l: set<nat>, end: nat, last: nat, r: Step, r': Step)
    requires end <= last <= |d.at|
  {
    match r
    case Next(_, _) => r' == r
    case Halt(Exit(j, t)) =>
      if j !in l then r' == r
      else j < |d.at| && d.at[j].Jmp? && Landing(d, j) >= end &&
           (Landing(d, j) <= last ==> r' == Next(Landing(d, j), LandRegs(d, j, t)))
    case Halt(Stuck) => true
    case Halt(_) => r' == r
  }

  lemma TestResume(c: Code, d: Code, l: set<nat>, vt: int, reg: Option<nat>, dt: nat -> int,
                   p0: nat, pc: nat, end: nat, last: nat, s: Regs, taken: bool)
    requires Resolved(c, d, l, vt, reg, dt, p0, end) && p0 <= pc < end <= last <= |d.at| && IsTest(c.at[pc])
    ensures StepResumes(d, l, end, last, TestAt(c, pc, end, s, taken), TestAt(d, pc, last, s, taken))
  {
    assert CellOk(c, d, l, vt, reg, dt, pc);
    if pc + 1 < end {
      assert CellOk(c, d, l, vt, reg, dt, pc + 1);
    }
  }

  lemma JumpResume(c: Code, d: Code, l: set<nat>, vt: int, reg: Option<nat>, dt: nat -> int,
                   p0: nat, pc: nat, end: nat, last: nat, s: Regs)
    requires Resolved(c, d, l, vt, reg, dt, p0, end) && p0 <= pc < end <= last <= |d.at| && c.at[pc].Jmp?
    ensures d.at[pc].Jmp? && StepResumes(d, l, end, last, JumpAt(c, pc, end, s), JumpAt(d, pc, last, s))
  {
    assert CellOk(c, d, l, vt, reg, dt, pc);
    if pc > p0 {
      assert CellOk(c, d, l, vt, reg, dt, pc - 1);
    }
  }

  lemma StepResume(c: Code, d: Code, l: set<nat>, vt: int, reg: Option<nat>, dt: nat -> int,
                   p0: nat, pc: nat, end: nat, last: nat, s: Regs)
    requires Resolved(c, d, l, vt, reg, dt, p0, end) && p0 <= pc < end <= last <= |d.at|
    ensures StepResumes(d, l, end, last, StepAt(c, pc, end, s), StepAt(d, pc, last, s))
  {
    hide SetNils, Arith, Unary, Get, StepResumes, TestAt, JumpAt;
    assert KOk(c.at[pc], |c.k|);
    assert CellOk(c, d, l, vt, reg, dt, pc);
    if IsTest(c.at[pc]) {
      TestResume(c, d, l, vt, reg, dt, p0, pc, end, last, s, true);
      TestResume(c, d, l, vt, reg, dt, p0, pc, end, last, s, false);
      FailResumes(d, l, end, last);
    } else if c.at[pc].Jmp? {
      JumpResume(c, d, l, vt, reg, dt, p0, pc, end, last, s);
    } else {
      assert c.at[pc] == d.at[pc];
      SameResumes(d, l, end, last, StepAt(c, pc, end, s));
    }
  }

  lemma FailResumes(d: Code, l: set<nat>, end: nat, last: nat)
    requires end <= last <= |d.at|
    ensures StepResumes(d, l, end, last, Halt(Fail), Halt(Fail))
  {
  }

  lemma SameResumes(d: Code, l: set<nat>, end: nat, last: nat, r: Step)
    requires end <= last <= |d.at| && !(r.Halt? && r.o.Exit?)
    ensures StepResumes(d, l, end, last, r, r)
  {
  }

  lemma {:induction false} Resume(c: Code, d: Code, l: set<nat>, vt: int, reg: Option<nat>, dt: nat -> int,
                                  p0: nat, pc: nat, end: nat, last: nat, s: Regs)
    requires Resolved(c, d, l, vt, reg, dt, p0, end) && p0 <= pc && end <= last <= |d.at|
    ensures Resumes(d, l, end, last, Exec(c, pc, end, s), Exec(d, pc, last, s))
    decreases end - pc
  {
    if pc < end {
      StepResume(c, d, l, vt, reg, dt, p0, pc, end, last, s);
      hide StepAt, Resolved;
      var r := StepAt(c, pc, end, s);
      if r.Next? { Resume(c, d, l, vt, reg, dt, p0, r.pc, end, last, r.s); }
    }
  }

  /** The two codes agree from p0 to end but for the threading of open jumps. */
  ghost predicate Same(c: Code, d: Code, p0: nat, end: nat) {
    Resolved(c, d, {}, end, None, To(end), p0, end)
  }

  lemma ExecSame(c: Code, d: Code, p0: nat, pc: nat, end: nat, s: Regs)
    requires Same(c, d, p0, end) && p0 <= pc && !Exec(c, pc, end, s).Stuck?
    ensures Exec(d, pc, end, s) == Exec(c, pc, end, s)
  {
    Resume(c, d, {}, end, None, To(end), p0, pc, end, end, s);
  }
}
