/** lcode.c for expressions, and subexpr of lparser.c, which drives it. */
module ExprCode {
  import opened LuaVm
  import opened ExprSem
  import opened JumpLists
  import opened ExprState
  import BareJump

  const NO_REG: nat := 255
  const MAXINDEXRK: nat := 255

  function DischargeVars(kind: Kind): Kind {
    if kind.VLocal? then VNonReloc(kind.reg) else kind
  }

  predicate HasJumps(e: ExpDesc) { e.t != e.f }

  predicate IsNumeral(e: ExpDesc) { e.kind.VKNum? && e.t == NO_JUMP && e.f == NO_JUMP }

  function SetA(i: Instr, a: nat): Instr {
    match i
    case ArithI(op, _, b, c) => ArithI(op, a, b, c)
    case UnaryI(op, _, b) => UnaryI(op, a, b)
    case _ => i
  }

  function Invert(i: Instr): Instr {
    if i.Compare? then i.(cond := !i.cond) else i
  }

  /** RKASK: constants come after all registers. */
  function RKNum(o: RK): nat { if o.K? then o.i + MAXINDEXRK + 1 else o.r }

  /** constfolding; None where the operator is left to the machine. */
  function Fold(m: Semantics, op: ArithOp, v: int, w: int): Option<int> {
    if (op.Div? || op.Mod?) && w == 0 then None
    else if m.isNan(m.num(op, v, w)) then None
    else Some(m.num(op, v, w))
  }

  /** The position of v among the constants. */
  function IndexOf(k: seq<Val>, v: Val): (r: Option<nat>)
    ensures r.Some? ==> r.value < |k| && k[r.value] == v
    ensures r.None? ==> v !in k
    decreases |k|
  {
    if k == [] then None
    else if k[|k|-1] == v then Some(|k| - 1)
    else IndexOf(k[..|k|-1], v)
  }

  // ---- Expressions the compiler meets ------------------------------------------------------

  /** An empty list is one without jumps. */
  lemma NoExits(code: seq<Instr>, code': seq<Instr>, t: int, f: int, T: set<nat>, F: set<nat>, h: int, b: bool, L: set<nat>)
    requires Linked(code, t, T) && Linked(code, f, F) && Linked(code', h, (if b then F else T) + L)
    ensures h == NO_JUMP ==> L == {} && (if b then f else t) == NO_JUMP
  {
    hide Linked;
    LinkedBound(code, t, T);
    LinkedBound(code, f, F);
    LinkedBound(code', h, (if b then F else T) + L);
  }

  /** The negation of a number is a number. */
  ghost predicate Sane(m: Semantics) {
    forall n :: !m.isNan(n) ==> !m.isNan(m.neg(n))
  }

  /** What kind of constant the code for an expression may end with. */
  datatype Ending = EndsNil | EndsTrue | EndsFalse | EndsConst | EndsCode

  function EndOf(a: Expr): Ending
    decreases a, 1
  {
    match a
    case Const(v) => if v.Nil? then EndsNil else if v.Bool? then (if v.b then EndsTrue else EndsFalse) else EndsConst
    case Local(_) => EndsCode
    case UnaryE(Not, e) => NotEnding(EndOf(e))
    case UnaryE(_, _) => if MayFold(a) then EndsConst else EndsCode
    case ArithE(_, _, _) => if MayFold(a) then EndsConst else EndsCode
    case RelE(_, _, _) => EndsCode
    case And(_, r) => EndOf(r)
    case Or(_, r) => EndOf(r)
  }

  /** An expression that may become a numeral without an instruction that computes it. */
  predicate MayFold(a: Expr)
    decreases a, 0
  {
    match a
    case Const(v) => v.Num?
    case UnaryE(Unm, e) => MayFold(e)
    case ArithE(_, l, r) => MayFold(l) && MayFold(r)
    case And(l, r) => Passes(EndOf(l), true) && MayFold(r)
    case Or(l, r) => Passes(EndOf(l), false) && MayFold(r)
    case _ => false
  }

  function NotEnding(e: Ending): Ending {
    match e
    case EndsNil => EndsTrue
    case EndsFalse => EndsTrue
    case EndsTrue => EndsFalse
    case EndsConst => EndsFalse
    case EndsCode => EndsCode
  }

  predicate EndsLike(kind: Kind, e: Ending) {
    match kind
    case VNil => e == EndsNil
    case VTrue => e == EndsTrue
    case VFalse => e == EndsFalse
    case VK(_) => e == EndsConst
    case VKNum(_) => e == EndsConst
    case _ => true
  }

  lemma NilEnds(kind: Kind, e: Ending)
    requires EndsLike(kind, e)
    ensures kind.VNil? ==> e == EndsNil
  {
  }

  /** Jumps may leave the code for a with a true (b) or false value. */
  predicate Exits(a: Expr, b: bool) {
    match a
    case UnaryE(Not, e) => Exits(e, !b)
    case And(_, r) => !b || Exits(r, b)
    case Or(_, r) => b || Exits(r, b)
    case _ => false
  }

  predicate LeavesEarly(a: Expr) { Exits(a, true) || Exits(a, false) }

  /** luaK_goiftrue (b) and luaK_goiffalse emit nothing for such a constant. */
  predicate Passes(e: Ending, b: bool) {
    if b then e == EndsTrue || e == EndsConst else e == EndsNil || e == EndsFalse
  }

  /** Jumps may wait for the place behind the code for a, if jumps may wait where it begins (w). They
      do not once the last instruction of it has been emitted. */
  predicate JumpsWait(a: Expr, w: bool)
    decreases a, 0
  {
    match a
    case Const(_) => w
    case Local(_) => w
    case UnaryE(Not, e) => JumpsWait(e, w)
    case UnaryE(Unm, e) => MayFold(e) && JumpsWait(e, w)
    case UnaryE(Len, _) => false
    case ArithE(_, l, r) => MayFold(l) && MayFold(r) && JumpsWait(r, JumpsWait(l, w))
    case RelE(_, _, _) => false
    case And(l, r) => JumpsWait(r, JumpsWaitBetween(l, true, w))
    case Or(l, r) => JumpsWait(r, JumpsWaitBetween(l, false, w))
  }

  /** The same for the place between the operands of `and` (b) and `or`. */
  predicate JumpsWaitBetween(l: Expr, b: bool, w: bool)
    decreases l, 1
  {
    Exits(l, b) || (Passes(EndOf(l), b) && JumpsWait(l, w))
  }

  /** Where a left operand of `and` ends with the constant false, or one of `or` with true, no jump
      waits for the bare jump that is emitted then. */
  predicate Plain(a: Expr, w: bool)
  {
    match a
    case Const(_) => true
    case Local(_) => true
    case UnaryE(_, e) => Plain(e, w)
    case ArithE(_, l, r) => Plain(l, w) && Plain(r, JumpsWait(l, w) || LeavesEarly(l))
    case RelE(_, l, r) => Plain(l, w) && Plain(r, JumpsWait(l, w) || LeavesEarly(l))
    case And(l, r) => Plain(l, w) && Plain(r, JumpsWaitBetween(l, true, w)) && (EndOf(l) == EndsFalse ==> !JumpsWait(l, w))
    case Or(l, r) => Plain(l, w) && Plain(r, JumpsWaitBetween(l, false, w)) && (EndOf(l) == EndsTrue ==> !JumpsWait(l, w))
  }

  lemma {:induction false} WaitsLess(a: Expr, w: bool)
    requires JumpsWait(a, false)
    ensures JumpsWait(a, w)
    decreases a
  {
    match a
    case UnaryE(_, e) => WaitsLess(e, w);
    case ArithE(_, l, r) =>
      if JumpsWait(l, false) { WaitsLess(l, w); } else { WaitsLess(r, JumpsWait(l, w)); }
    case And(l, r) =>
      if JumpsWait(l, false) { WaitsLess(l, w); }
      if !JumpsWaitBetween(l, true, false) { WaitsLess(r, w); }
    case Or(l, r) =>
      if JumpsWait(l, false) { WaitsLess(l, w); }
      if !JumpsWaitBetween(l, false, false) { WaitsLess(r, w); }
    case _ =>
  }

  lemma {:induction false} PlainLess(a: Expr, w: bool)
    requires Plain(a, true)
    ensures Plain(a, w)
    decreases a
  {
    match a
    case UnaryE(_, e) => PlainLess(e, w);
    case ArithE(_, l, r) =>
      PlainLess(l, w);
      if JumpsWait(l, w) && w != true { WaitsLess(l, true); }
      if JumpsWait(l, true) && !JumpsWait(l, w) { PlainLess(r, LeavesEarly(l)); }
    case RelE(_, l, r) =>
      PlainLess(l, w);
      if JumpsWait(l, w) && w != true { WaitsLess(l, true); }
      if JumpsWait(l, true) && !JumpsWait(l, w) { PlainLess(r, LeavesEarly(l)); }
    case And(l, r) =>
      PlainLess(l, w);
      if JumpsWait(l, w) && w != true { WaitsLess(l, true); }
      if JumpsWaitBetween(l, true, true) && !JumpsWaitBetween(l, true, w) { PlainLess(r, false); }
    case Or(l, r) =>
      PlainLess(l, w);
      if JumpsWait(l, w) && w != true { WaitsLess(l, true); }
      if JumpsWaitBetween(l, false, true) && !JumpsWaitBetween(l, false, w) { PlainLess(r, false); }
    case _ =>
  }

  /** Jumps that wait after luaK_goiftrue or luaK_goiffalse. */
  lemma WaitBetween(l: Expr, b: bool, w: bool, kind: Kind)
    requires EndsLike(kind, EndOf(l)) && JumpsWait(l, w)
    requires if b then kind.VK? || kind.VKNum? || kind.VTrue? else kind.VNil? || kind.VFalse?
    ensures JumpsWaitBetween(l, b, w)
  {
  }

  lemma OperandWaits(l: Expr)
    ensures Exits(l, true) || Exits(l, false) ==> LeavesEarly(l)
  {
  }

  /** Only operators that have been folded leave the code as it is. */
  lemma FoldWaits(a: Expr, w: bool, w1: bool)
    requires a.ArithE? && MayFold(a.l) && MayFold(a.r) && JumpsWait(a.r, w1) && (w1 ==> JumpsWait(a.l, w))
    ensures JumpsWait(a, w)
  {
    if !w1 { WaitsLess(a.r, JumpsWait(a.l, w)); }
  }

  lemma ExitsWaitBetween(l: Expr, b: bool, w: bool)
    ensures Exits(l, b) ==> JumpsWaitBetween(l, b, w)
  {
  }

  lemma ExitsBehind(l: Expr, r: Expr, b: bool)
    ensures Exits(r, b) ==> Exits(if b then And(l, r) else Or(l, r), b)
    ensures Exits(if b then And(l, r) else Or(l, r), !b)
  {
  }

  /** Jumps that wait behind both operands. */
  lemma WaitBehind(l: Expr, r: Expr, b: bool, w: bool, w1: bool)
    requires w1 ==> JumpsWaitBetween(l, b, w)
    ensures JumpsWait(r, w1) ==> JumpsWait(if b then And(l, r) else Or(l, r), w)
  {
    if JumpsWait(r, w1) && !w1 { WaitsLess(r, JumpsWaitBetween(l, b, w)); }
  }

  /** An expression of numerals only, which is a constant after folding. */
  predicate Numeral(a: Expr) {
    match a
    case Const(v) => v.Num?
    case UnaryE(Unm, e) => Numeral(e)
    case ArithE(_, l, r) => Numeral(l) && Numeral(r)
    case _ => false
  }

  /** No constant, after folding, is an operand of `and`, `or` or `not`. */
  predicate NoConstantOperand(a: Expr) {
    match a
    case Const(_) => true
    case Local(_) => true
    case UnaryE(op, e) => NoConstantOperand(e) && (op.Not? ==> !e.Const? && !Numeral(e))
    case ArithE(_, l, r) => NoConstantOperand(l) && NoConstantOperand(r)
    case RelE(_, l, r) => NoConstantOperand(l) && NoConstantOperand(r)
    case And(l, r) => NoConstantOperand(l) && NoConstantOperand(r) && !l.Const? && !Numeral(l) && !r.Const? && !Numeral(r)
    case Or(l, r) => NoConstantOperand(l) && NoConstantOperand(r) && !l.Const? && !Numeral(l) && !r.Const? && !Numeral(r)
  }

  /** The code for any other expression of this kind ends with an instruction. */
  lemma {:induction false} EndsInCode(a: Expr)
    requires NoConstantOperand(a)
    ensures MayFold(a) ==> Numeral(a)
    ensures !a.Const? && !Numeral(a) ==> EndOf(a) == EndsCode
    decreases a
  {
    match a
    case UnaryE(_, e) => EndsInCode(e);
    case ArithE(_, l, r) =>
      EndsInCode(l);
      EndsInCode(r);
    case And(l, r) => EndsInCode(r);
    case Or(l, r) => EndsInCode(r);
    case _ =>
  }

  /** No bare jump is emitted for such expressions: all of them are in the fragment, wherever they
      begin. */
  lemma {:induction false} NoConstantOperandIsPlain(a: Expr, w: bool)
    requires NoConstantOperand(a)
    ensures Plain(a, w)
    decreases a
  {
    match a
    case UnaryE(_, e) => NoConstantOperandIsPlain(e, w);
    case ArithE(_, l, r) =>
      NoConstantOperandIsPlain(l, w);
      NoConstantOperandIsPlain(r, JumpsWait(l, w) || LeavesEarly(l));
    case RelE(_, l, r) =>
      NoConstantOperandIsPlain(l, w);
      NoConstantOperandIsPlain(r, JumpsWait(l, w) || LeavesEarly(l));
    case And(l, r) =>
      EndsInCode(l);
      NoConstantOperandIsPlain(l, w);
      NoConstantOperandIsPlain(r, JumpsWaitBetween(l, true, w));
    case Or(l, r) =>
      EndsInCode(l);
      NoConstantOperandIsPlain(l, w);
      NoConstantOperandIsPlain(r, JumpsWaitBetween(l, false, w));
    case _ =>
  }

  /** What the code for an operator ends with. */
  lemma OperatorEnds(a: Expr)
    ensures a.UnaryE? && a.uop.Not? ==> EndOf(a) == NotEnding(EndOf(a.e)) && !MayFold(a)
    ensures a.UnaryE? && a.uop.Unm? && MayFold(a.e) ==> EndOf(a) == EndsConst && MayFold(a)
    ensures a.ArithE? && MayFold(a.l) && MayFold(a.r) ==> EndOf(a) == EndsConst && MayFold(a)
    ensures a.RelE? ==> EndOf(a) == EndsCode
    ensures a.And? ==> EndOf(a) == EndOf(a.r) && (MayFold(a) <==> Passes(EndOf(a.l), true) && MayFold(a.r))
    ensures a.Or? ==> EndOf(a) == EndOf(a.r) && (MayFold(a) <==> Passes(EndOf(a.l), false) && MayFold(a.r))
  {
  }

  /** What the operands of a ask of the state in which they begin. */
  lemma OperandsAsk(a: Expr)
    ensures a.UnaryE? ==> Size(a) == Size(a.e) + 1 && (NilOperand(a.e) ==> NilOperand(a)) && (LoadsNil(a.e) ==> LoadsNil(a))
    ensures a.UnaryE? && !a.uop.Not? && a.e == Const(Val.Nil) ==> LoadsNil(a)
    ensures a.ArithE? || a.RelE? ==> Size(a) == Size(a.l) + Size(a.r) + 3
    ensures (a.ArithE? || a.RelE?) && (EndOf(a.l) == EndsNil || EndOf(a.r) == EndsNil || NilOperand(a.l) || NilOperand(a.r)) ==> NilOperand(a)
    ensures (a.ArithE? || a.RelE?) && (LoadsNil(a.l) || LoadsNil(a.r)) ==> LoadsNil(a)
    ensures a.And? || a.Or? ==> Size(a) == Size(a.l) + Size(a.r) + 1 && (LoadsNil(a.l) ==> LoadsNil(a))
    ensures (a.And? || a.Or?) && (NilOperand(a.l) || NilOperand(a.r)) ==> NilOperand(a)
    ensures a.And? && a.l == Const(Val.Nil) ==> LoadsNil(a)
  {
  }

  /** The numerals are numbers. */
  ghost predicate Literals(m: Semantics, a: Expr) {
    match a
    case Const(v) => v.Num? ==> !m.isNan(v.n)
    case Local(_) => true
    case UnaryE(_, e) => Literals(m, e)
    case ArithE(_, l, r) => Literals(m, l) && Literals(m, r)
    case RelE(_, l, r) => Literals(m, l) && Literals(m, r)
    case And(l, r) => Literals(m, l) && Literals(m, r)
    case Or(l, r) => Literals(m, l) && Literals(m, r)
  }

  /** An operand of an arithmetic operator or a comparison may be nil, and then becomes a constant. */
  predicate NilOperand(a: Expr) {
    match a
    case UnaryE(_, e) => NilOperand(e)
    case ArithE(_, l, r) => EndOf(l) == EndsNil || EndOf(r) == EndsNil || NilOperand(l) || NilOperand(r)
    case RelE(_, l, r) => EndOf(l) == EndsNil || EndOf(r) == EndsNil || NilOperand(l) || NilOperand(r)
    case And(l, r) => NilOperand(l) || NilOperand(r)
    case Or(l, r) => NilOperand(l) || NilOperand(r)
    case _ => false
  }

  /** A nil literal inside is loaded into a register, where no operand of `and` or `or` comes before. */
  predicate LoadsNil(a: Expr) {
    match a
    case UnaryE(op, e) => LoadsNil(e) || (!op.Not? && e == Const(Val.Nil))
    case ArithE(_, l, r) => LoadsNil(l) || LoadsNil(r)
    case RelE(_, l, r) => LoadsNil(l) || LoadsNil(r)
    case And(l, _) => LoadsNil(l) || l == Const(Val.Nil)
    case Or(l, _) => LoadsNil(l)
    case _ => false
  }

  /** A bound on the constants an expression adds. */
  function Size(a: Expr): nat {
    match a
    case Const(_) => 1
    case Local(_) => 1
    case UnaryE(_, e) => Size(e) + 1
    case ArithE(_, l, r) => Size(l) + Size(r) + 3
    case RelE(_, l, r) => Size(l) + Size(r) + 3
    case And(l, r) => Size(l) + Size(r) + 1
    case Or(l, r) => Size(l) + Size(r) + 1
  }

  /** What is asked of an expression: its locals are active, and it is in the fragment. */
  ghost predicate Fine(m: Semantics, nact: nat, a: Expr, w: bool) {
    LocalsBelow(a, nact) && Plain(a, w) && Literals(m, a)
  }

  lemma FineParts(m: Semantics, nact: nat, a: Expr, w: bool)
    requires Fine(m, nact, a, w)
    ensures LocalsBelow(a, nact) && Literals(m, a)
    ensures a.UnaryE? ==> Fine(m, nact, a.e, w)
    ensures !a.Const? && !a.Local? && !a.UnaryE? ==> Fine(m, nact, a.l, w) && LocalsBelow(a.r, nact)
    ensures a.ArithE? || a.RelE? ==> Fine(m, nact, a.r, JumpsWait(a.l, w) || LeavesEarly(a.l))
    ensures a.And? ==> Fine(m, nact, a.r, JumpsWaitBetween(a.l, true, w)) && (EndOf(a.l) == EndsFalse ==> !JumpsWait(a.l, w))
    ensures a.Or? ==> Fine(m, nact, a.r, JumpsWaitBetween(a.l, false, w)) && (EndOf(a.l) == EndsTrue ==> !JumpsWait(a.l, w))
  {
  }

  lemma FineLess(m: Semantics, nact: nat, a: Expr, w: bool, w': bool)
    requires Fine(m, nact, a, w) && (w' ==> w)
    ensures Fine(m, nact, a, w')
  {
    if w { PlainLess(a, w'); }
  }

  class FuncState {
    var code: seq<Instr>
    var jpc: int
    var lasttarget: int
    var freereg: nat
    var k: seq<Val>
    const nactvar: nat
    const m: Semantics
    /** The jumps on list jpc. */
    ghost var jl: set<nat>

    ghost function Now(): St
      reads this
    {
      St(code, jpc, jl, k)
    }

    /** What holds between any two instructions. */
    ghost predicate Base()
      reads this
    {
      && Linked(code, jpc, jl) && lasttarget <= |code| && (jl != {} ==> lasttarget == |code|)
    }

    /** e, with its lists T and F, stands for the value of g.a. */
    ghost predicate Is(e: ExpDesc, T: set<nat>, F: set<nat>, g: Goal)
      reads this
    {
      Base() && ExpOk(Now(), m, nactvar, freereg, e, T, F, g)
    }

    /** luaK_nil emits an instruction of its own for this register: nothing says that the register is
        nil already, and there is no LOADNIL to extend. */
    predicate NilEmits(reg: nat)
      reads this
    {
      |code| <= lasttarget || if |code| == 0 then reg < nactvar else !NilJoins(code[|code|-1], reg)
    }

    /** It does so for any register. */
    predicate Clean()
      reads this
    {
      lasttarget == |code| || (|code| > 0 && !code[|code|-1].LoadNil?)
    }

    /** What it does to the state x otherwise. */
    ghost predicate NilSaved(x: St, reg: nat)
      reads this
    {
      if x.code == [] then Now() == x
      else var i := x.code[|x.code|-1];
        NilJoins(i, reg) && Now() == x.(code := x.code[|x.code|-1 := NilJoined(i, reg, 1)])
    }

    predicate Temp(kind: Kind) { kind.VNonReloc? && kind.reg >= nactvar }

    constructor (nact: nat, free: nat, sem: Semantics)
      requires nact <= free
      ensures Base() && Now() == St([], NO_JUMP, {}, []) && freereg == free && nactvar == nact && m == sem && lasttarget == -1
    {
      code, jpc, lasttarget, freereg, k, nactvar, m, jl := [], NO_JUMP, -1, free, [], nact, sem, {};
      new;
      LinkedNone(code);
    }

    // ---- Jump lists ------------------------------------------------------------------------

    /** need_value: does some jump of the list not yield a value? */
    method NeedValue(list: int, ghost L: set<nat>) returns (b: bool)
      requires Linked(code, list, L)
      ensures b <==> exists j :: j in L && !YieldsValue(code, j)
    {
      var p := list;
      ghost var rest: seq<nat> :| Chain(code, list, rest) && Elems(rest) == L;
      while p != NO_JUMP
        invariant Chain(code, p, rest) && Elems(rest) <= L
        invariant forall j :: j in L && j !in Elems(rest) ==> YieldsValue(code, j)
        decreases |rest|
      {
        ChainElems(rest);
        if !YieldsValue(code, p) { return true; }
        p := GetJump(code, p);
        rest := rest[1..];
      }
      return false;
    }

    /** removevalues. */
    method RemoveValues(list: int, ghost L: set<nat>)
      requires Linked(code, list, L)
      modifies this`code
      ensures code == Valueless(old(code), L)
    {
      var p := list;
      ghost var all: seq<nat> :| Chain(code, list, all) && Elems(all) == L;
      ghost var rest, done: set<nat> := all, {};
      assert code == Valueless(code, {});
      while p != NO_JUMP
        invariant code == Valueless(old(code), done) && done + Elems(rest) == L
        invariant Chain(old(code), p, rest)
        decreases |rest|
      {
        ChainElems(rest);
        ChainBound(old(code), p, rest);
        ValuelessOne(old(code), done, p);
        if YieldsValue(code, p) { code := code[p-1 := PatchTest(code[p-1], None)]; }
        p := GetJump(code, p);
        done, rest := done + {rest[0]}, rest[1..];
      }
    }

    /** patchlistaux: every jump of the list gets its target, and nothing else changes but the
        tests that control the jumps. */
    method PatchListAux(list: int, vtarget: int, reg: Option<nat>, dtarget: int, ghost L: set<nat>)
      requires Linked(code, list, L)
      modifies this`code
      ensures code == Patched(old(code), L, vtarget, reg, To(dtarget))
    {
      hide PatchTest, PatchCell, Patched;
      var p := list;
      ghost var all: seq<nat> :| Chain(code, list, all) && Elems(all) == L;
      ghost var rest, done: set<nat> := all, {};
      ghost var dt: nat -> int := To(dtarget);
      PatchedNone(code, vtarget, reg, dt);
      LinkedBound(code, list, L);
      while p != NO_JUMP
        invariant code == Patched(old(code), done, vtarget, reg, dt) && done + Elems(rest) == L && done !! Elems(rest)
        invariant Chain(old(code), p, rest)
        decreases |rest|
      {
        ChainElems(rest);
        ChainBound(old(code), p, rest);
        PatchOne(old(code), done, vtarget, reg, dt, p, code);
        var next := GetJump(code, p);
        if YieldsValue(code, p) {
          code := code[p-1 := PatchTest(code[p-1], reg)];
          code := code[p := Jmp(vtarget - (p + 1))];
        } else {
          code := code[p := Jmp(dtarget - (p + 1))];
        }
        p := next;
        done, rest := done + {rest[0]}, rest[1..];
      }
      assert rest == [] && done == L;
    }

    /** luaK_concat: one list with the jumps of both. */
    method Concat(l1: int, l2: int, ghost A: set<nat>, ghost B: set<nat>) returns (r: int)
      requires Linked(code, l1, A) && Linked(code, l2, B) && A !! B
      modifies this`code
      ensures Linked(code, r, A + B) && Rethreaded(old(code), code, A)
      ensures l1 == NO_JUMP ==> r == l2 && code == old(code)
      ensures l2 == NO_JUMP ==> r == l1 && code == old(code)
    {
      LinkedBound(code, l1, A);
      LinkedBound(code, l2, B);
      if l2 == NO_JUMP {
        assert A + B == A;
        return l1;
      } else if l1 == NO_JUMP {
        assert A + B == B;
        return l2;
      }
      ghost var all: seq<nat> :| Chain(code, l1, all) && Elems(all) == A;
      ghost var other: seq<nat> :| Chain(code, l2, other) && Elems(other) == B;
      var list := l1;
      ghost var rest := all;
      ChainElems(all);
      while GetJump(code, list) != NO_JUMP
        invariant code == old(code) && rest != [] && Chain(code, list, rest) && list == rest[0] && rest[|rest|-1] == all[|all|-1] && Elems(rest) <= A
        decreases |rest|
      {
        ChainElems(rest);
        list := GetJump(code, list);
        rest := rest[1..];
        ChainElems(rest);
      }
      assert |rest| == 1 && list == all[|all|-1];
      assert all[|all|-1] in Elems(all);
      code := code[list := Jmp(l2 - (list + 1))];
      ChainAppend(old(code), code, l1, all, l2, other);
      assert Chain(code, l1, all + other) && Elems(all + other) == A + B;
      return l1;
    }

    /** dischargejpc. */
    method DischargeJpc()
      requires Linked(code, jpc, jl)
      modifies this`code, this`jpc, this`jl
      ensures code == View(old(Now())) && jpc == NO_JUMP && jl == {}
    {
      ghost var n := |code|;
      PatchListAux(jpc, |code|, None, |code|, jl);
      jpc := NO_JUMP;
      jl := {};
    }

    /** luaK_code. */
    method CodeI(i: Instr) returns (pc: nat)
      requires Linked(code, jpc, jl)
      modifies this`code, this`jpc, this`jl
      ensures Now() == Emit(old(Now()), i) && pc == |old(code)| && Linked(code, jpc, jl)
    {
      DischargeJpc();
      code := code + [i];
      LinkedNone(code);
      return |code| - 1;
    }

    /** luaK_jump: the new jump and those that wait for this place make one list. */
    method Jump() returns (j: int)
      requires Linked(code, jpc, jl)
      modifies this`code, this`jpc, this`jl
      ensures |code| == |old(code)| + 1 && code[..|old(code)|] == old(code) && code[|old(code)|].Jmp?
      ensures jpc == NO_JUMP && jl == {} && Linked(code, j, {|old(code)|} + old(jl)) && Linked(code, jpc, jl)
      ensures old(jl) == {} ==> Now() == Emit(old(Now()), Jmp(NO_JUMP)) && j == |old(code)|
    {
      ghost var waiting := jl;
      var save := jpc;
      jpc, jl := NO_JUMP, {};
      LinkedNone(code);
      HereNone(code);
      LinkedBound(code, save, waiting);
      var pc := CodeI(Jmp(NO_JUMP));
      LinkedOne(code, pc);
      LinkedFrame(old(code), code, save, waiting);
      j := Concat(pc, save, {pc}, waiting);
      LinkedNone(code);
      LinkedBound(code, j, {pc} + waiting);
    }

    /** condjump. */
    method CondJump(i: Instr) returns (j: int)
      requires Linked(code, jpc, jl)
      modifies this`code, this`jpc, this`jl
      ensures code == View(old(Now())) + [i, Jmp(NO_JUMP)] && jpc == NO_JUMP && jl == {} && j == |old(code)| + 1 && Linked(code, jpc, jl)
    {
      var pc := CodeI(i);
      ghost var x := Now();
      HereNone(code);
      j := Jump();
      LinkedNone(code);
    }

    /** luaK_getlabel. */
    method GetLabel()
      modifies this`lasttarget
      ensures lasttarget == |code|
    {
      lasttarget := |code|;
    }

    /** luaK_patchtohere. */
    method PatchToHere(list: int, ghost L: set<nat>)
      requires Base() && Linked(code, list, L) && L !! jl
      modifies this`code, this`jpc, this`jl, this`lasttarget
      ensures Base() && lasttarget == |code| && jl == old(jl) + L && Rethreaded(old(code), code, old(jl))
      ensures old(jpc) == NO_JUMP ==> code == old(code) && jpc == list
    {
      GetLabel();
      jpc := Concat(jpc, list, jl, L);
      jl := jl + L;
    }

    // ---- Registers and constants -----------------------------------------------------------

    method ReserveRegs(n: nat)
      modifies this`freereg
      ensures freereg == old(freereg) + n
    {
      freereg := freereg + n;
    }

    /** freeexp and freereg: registers are freed in the order of a stack, as lua_assert demands. */
    method FreeExp(kind: Kind)
      requires Temp(kind) ==> kind.reg + 1 == freereg
      modifies this`freereg
      ensures freereg == if Temp(kind) then old(freereg) - 1 else old(freereg)
    {
      if kind.VNonReloc? && kind.reg >= nactvar {
        freereg := freereg - 1;
        assert kind.reg == freereg;
      }
    }

    /** addk. */
    method AddK(v: Val) returns (i: nat)
      modifies this`k
      ensures old(k) <= k && |k| <= |old(k)| + 1 && i < |k| && k[i] == v && i <= |old(k)|
    {
      var at := IndexOf(k, v);
      if at.Some? { return at.value; }
      i := |k|;
      k := k + [v];
    }

    /** luaK_nil: at the start of a function registers are nil already, and after a LOADNIL with
        the right registers, and with no jump to this place, that instruction does it. */
    method Nil(from: nat, n: nat)
      requires Base() && n > 0
      modifies this`code, this`jpc, this`jl
      ensures Base() && lasttarget == old(lasttarget)
      ensures var pc := |old(code)|;
        if pc > lasttarget && pc == 0 && from >= nactvar then Now() == old(Now())
        else if pc > lasttarget && pc > 0 && NilJoins(old(code)[pc-1], from) then
          Now() == old(Now()).(code := old(code)[pc-1 := NilJoined(old(code)[pc-1], from, n)])
        else Now() == Emit(old(Now()), LoadNil(from, from + n - 1))
    {
      if |code| > lasttarget {
        if |code| == 0 {
          if from >= nactvar { return; }
        } else {
          var previous := code[|code|-1];
          if previous.LoadNil? {
            if previous.a <= from <= previous.last + 1 {
              if from + n - 1 > previous.last { code := code[|code|-1 := previous.(last := from + n - 1)]; }
              assert jl == {};
              LinkedFrame(old(code), code, jpc, jl);
              return;
            }
          }
        }
      }
      var pc := CodeI(LoadNil(from, from + n - 1));
    }

    // ---- A value in a register -------------------------------------------------------------

    /** discharge2reg for anything but a comparison. */
    method Discharge2Reg(e: ExpDesc, reg: nat, ghost T: set<nat>, ghost F: set<nat>, ghost g: Goal) returns (r: ExpDesc)
      requires Is(e, T, F, g) && !e.kind.Passed? && !e.kind.VJmp? && g.base <= reg < freereg
      modifies this`code, this`jpc, this`jl, this`k
      ensures r == ExpDesc(VNonReloc(reg), e.t, e.f)
      ensures (e.kind.VNil? ==> old(NilEmits(reg))) ==> Is(r, T, F, g) && Grown(old(Now()), Now(), g.p0)
      ensures e.kind.VNil? && !old(NilEmits(reg)) ==> Base() && NilSaved(old(Now()), reg)
      ensures jl == if e.kind == VNonReloc(reg) then old(jl) else {}
      ensures |k| <= |old(k)| + 1 && (old(Clean()) && !e.kind.VNil? ==> Clean()) && |code| >= |old(code)|
    {
      hide Linked, Denotes, Here, Grown;
      ghost var x, at, saved := Now(), 0, e.kind.VNil? && !NilEmits(reg);
      GrownSelf(x, g.p0);
      r := ExpDesc(VNonReloc(reg), e.t, e.f);
      match e.kind {
        case VNil => Nil(reg, 1);
        case VFalse => var pc := CodeI(LoadBool(reg, false, false));
        case VTrue => var pc := CodeI(LoadBool(reg, true, false));
        case VK(info) => var pc := CodeI(LoadK(reg, info));
        case VKNum(n) =>
          var info := AddK(Num(n));
          at := info;
          var pc := CodeI(LoadK(reg, info));
        case VReloc(pc) => code := code[pc := SetA(code[pc], reg)];
        case VNonReloc(from) =>
          if from == reg { return; }
          var pc := CodeI(Move(reg, from));
        case VLocal(from) => var pc := CodeI(Move(reg, from));
      }
      if !saved { DischargedTo(x, Now(), m, nactvar, freereg, e, T, F, g, reg, at); }
    }

    /** The code for a boolean that a jump may lead to. */
    method CodeLabel(a: nat, b: bool, jump: bool) returns (pc: nat)
      requires Linked(code, jpc, jl)
      modifies this`code, this`jpc, this`jl, this`lasttarget
      ensures Now() == Emit(old(Now()), LoadBool(a, b, jump)) && pc == |old(code)| && lasttarget == pc && Linked(code, jpc, jl)
    {
      GetLabel();
      pc := CodeI(LoadBool(a, b, jump));
    }

    /** The places that load false and true, behind a jump over them unless the code falls through
        with false. */
    method PlaceLabels(d: ExpDesc, reg: nat) returns (pf: int, pt: int, ghost raw: seq<Instr>)
      requires Base() && jl == {}
      modifies this`code, this`jpc, this`jl, this`lasttarget
      ensures code == old(code) + raw && |raw| == (if d.kind.VJmp? then 2 else 3) && pf == |code| - 2 && pt == |code| - 1
      ensures raw[|raw|-2..] == [LoadBool(reg, false, true), LoadBool(reg, true, false)]
      ensures !d.kind.VJmp? ==> raw[0] == Jmp(NO_JUMP)
      ensures jl == (if d.kind.VJmp? then {} else {|old(code)|}) && Linked(code, jpc, jl) && Base() && lasttarget == |code|
    {
      hide Linked, Here, View;
      ghost var n, J: set<nat> := |code|, {};
      var fj := NO_JUMP;
      raw := [];
      PlainView(Now());
      if !d.kind.VJmp? {
        fj := Jump();
        J := {n};
        raw := [Jmp(NO_JUMP)];
      }
      PlainView(Now());
      pf := CodeLabel(reg, false, true);
      PlainView(Now());
      pt := CodeLabel(reg, true, false);
      raw := raw + [LoadBool(reg, false, true), LoadBool(reg, true, false)];
      assert code == old(code) + raw;
      LabelList(code, n, fj, J);
      PatchToHere(fj, J);
    }

    /** The second half of exp2reg: the places that load booleans, if a jump needs them, and then
        the targets of all jumps. A comparison falls through when it is false. */
    method PatchValues(d: ExpDesc, reg: nat, ghost T: set<nat>, ghost F: set<nat>, ghost g: Goal)
      requires Is(ExpDesc(if d.kind.VJmp? then VFalse else d.kind, d.t, d.f), T, F, g) && g.base <= reg < freereg
      requires if d.kind.VJmp? then exists j :: j in T && !YieldsValue(code, j) else d.kind == VNonReloc(reg)
      requires HasJumps(d) && jl == {}
      modifies this`code, this`jpc, this`jl, this`lasttarget
      ensures Is(ExpDesc(VNonReloc(reg), NO_JUMP, NO_JUMP), {}, {}, g) && Grown(old(Now()), Now(), g.p0) && lasttarget == |code|
      ensures |code| >= |old(code)| && (d.kind.VJmp? ==> jl == {})
    {
      hide Linked, Denotes, Here, Grown, Means, KindOk, Patched, View;
      ghost var x, kind := Now(), if d.kind.VJmp? then VFalse else d.kind;
      ghost var raw: seq<Instr> := [];
      PlainView(x);
      LinkedBoth(code, d.t, T, d.f, F);
      var pf, pt := NO_JUMP, NO_JUMP;
      var need := NeedValue(d.t, T);
      if !need { need := NeedValue(d.f, F); }
      LinkedNone(code);
      if need {
        pf, pt, raw := PlaceLabels(d, reg);
      }
      assert need || x.code + raw == x.code;
      TailSize(kind, reg, need);
      hide Tail;
      GetLabel();
      var final := |code|;
      TwoLists(x.code, raw, d.t, T, d.f, F, jpc, jl, final, reg, pf);
      PatchListAux(d.f, final, Some(reg), pf, F);
      PatchedLinked(code, T, final, Some(reg), To(pt), jpc, jl);
      PatchListAux(d.t, final, Some(reg), pt, T);
      Finished(x, Now(), m, nactvar, freereg, ExpDesc(kind, d.t, d.f), T, F, g, reg, need, raw, pf, pt);
    }

    /** exp2reg. */
    method Exp2Reg(e: ExpDesc, reg: nat, ghost T: set<nat>, ghost F: set<nat>, ghost g: Goal) returns (r: ExpDesc)
      requires Is(e, T, F, g) && !e.kind.Passed? && g.base <= reg < freereg && (e.kind.VNil? && T + F != {} ==> NilEmits(reg))
      modifies this`code, this`jpc, this`jl, this`lasttarget, this`k
      ensures r == ExpDesc(VNonReloc(reg), NO_JUMP, NO_JUMP)
      ensures (e.kind.VNil? ==> old(NilEmits(reg))) ==> Is(r, {}, {}, g) && Grown(old(Now()), Now(), g.p0)
      ensures e.kind.VNil? && !old(NilEmits(reg)) ==> Base() && NilSaved(old(Now()), reg)
      ensures |k| <= |old(k)| + 1 && (old(Clean()) && (e.kind.VNil? ==> T + F != {}) ==> Clean())
      ensures jl != {} ==> old(jl) != {} || T + F != {}
    {
      hide Linked, Denotes, Here, Grown, Means, View, YieldsValue;
      ghost var x, T1, saved := Now(), T, e.kind.VNil? && !NilEmits(reg);
      var d: ExpDesc;
      if e.kind.VJmp? {
        LinkedOne(code, e.kind.pc);
        var t := Concat(e.t, e.kind.pc, T, {e.kind.pc});
        T1 := T + {e.kind.pc};
        d := ExpDesc(e.kind, t, e.f);
        Compared(x, Now(), m, nactvar, freereg, e, T, F, g, t);
        JumpOfCompare(x.code, code, e.kind.pc, T);
      } else {
        LinkedEnds(code, e.t, T, e.f, F);
        d := Discharge2Reg(e, reg, T, F, g);
      }
      ghost var y := Now();
      if !saved { SameHead(code, d.t, T1, d.f, F); }
      if HasJumps(d) {
        PatchValues(d, reg, T1, F, g);
      }
      if !saved {
        GrownTrans(x, y, Now(), g.p0, g.p0) by { GrownSelf(y, g.p0); }
        LinkedEnds(code, d.t, T1, d.f, F);
      }
      r := ExpDesc(VNonReloc(reg), NO_JUMP, NO_JUMP);
    }

    /** luaK_exp2nextreg. */
    method Exp2NextReg(e: ExpDesc, ghost T: set<nat>, ghost F: set<nat>, ghost g: Goal) returns (r: ExpDesc)
      requires Is(e, T, F, g) && !e.kind.Passed? && (e.kind.VNil? && T + F != {} ==> NilEmits(freereg))
      requires Temp(e.kind) ==> e.kind.reg + 1 == freereg
      modifies this`code, this`jpc, this`jl, this`lasttarget, this`k, this`freereg
      ensures freereg == (if Temp(e.kind) then old(freereg) else old(freereg) + 1) && r == ExpDesc(VNonReloc(freereg - 1), NO_JUMP, NO_JUMP)
      ensures (e.kind.VNil? ==> old(NilEmits(freereg))) ==> Is(r, {}, {}, g) && Grown(old(Now()), Now(), g.p0)
      ensures e.kind.VNil? && !old(NilEmits(freereg)) ==> Base() && NilSaved(old(Now()), old(freereg))
      ensures |k| <= |old(k)| + 1 && (old(Clean()) && (e.kind.VNil? ==> T + F != {}) ==> Clean())
      ensures jl != {} ==> old(jl) != {} || T + F != {}
    {
      hide Linked, Means, Here, Grown, View;
      FreeExp(DischargeVars(e.kind));
      ReserveRegs(1);
      r := Exp2Reg(e, freereg - 1, T, F, g);
    }

    /** Where the value is: as the source leaves it in a register, its register counts as taken
        only if it is not that of a local. */
    predicate Placed(before: Kind, after: Kind, free: nat, free': nat) {
      if Temp(before) then after == before && free' == free
      else if Temp(after) then after.reg == free && free' == free + 1
      else free' == free
    }

    /** luaK_exp2anyreg. */
    method Exp2AnyReg(e: ExpDesc, ghost T: set<nat>, ghost F: set<nat>, ghost g: Goal) returns (r: ExpDesc)
      requires Is(e, T, F, g) && !e.kind.Passed? && (e.kind.VNil? ==> NilEmits(freereg))
      modifies this`code, this`jpc, this`jl, this`lasttarget, this`k, this`freereg
      ensures Is(r, {}, {}, g) && r.kind.VNonReloc? && r.t == NO_JUMP == r.f && Placed(e.kind, r.kind, old(freereg), freereg)
      ensures Grown(old(Now()), Now(), g.p0)
      ensures T + F == {} && DischargeVars(e.kind).VNonReloc? ==> Now() == old(Now()) && r.kind == DischargeVars(e.kind)
      ensures |k| <= |old(k)| + 1 && (old(Clean()) && (e.kind.VNil? ==> T + F != {}) ==> Clean())
      ensures jl != {} ==> old(jl) != {} || T + F != {}
    {
      hide Linked, Denotes, Here, Grown, Means, View;
      GrownSelf(Now(), g.p0);
      SameHead(code, e.t, T, e.f, F);
      LinkedEnds(code, e.t, T, e.f, F);
      var d := ExpDesc(DischargeVars(e.kind), e.t, e.f);
      VarsDischarged(Now(), m, nactvar, freereg, e, T, F, g);
      if d.kind.VNonReloc? {
        if !HasJumps(d) { return d; }
        if d.kind.reg >= nactvar {
          r := Exp2Reg(d, d.kind.reg, T, F, g);
          return;
        }
      }
      r := Exp2NextReg(d, T, F, g);
    }

    /** luaK_exp2val. */
    method Exp2Val(e: ExpDesc, ghost T: set<nat>, ghost F: set<nat>, ghost g: Goal) returns (r: ExpDesc)
      requires Is(e, T, F, g) && !e.kind.Passed? && (e.kind.VNil? && T + F != {} ==> NilEmits(freereg))
      modifies this`code, this`jpc, this`jl, this`lasttarget, this`k, this`freereg
      ensures Is(r, {}, {}, g) && r.t == NO_JUMP == r.f && Placed(e.kind, r.kind, old(freereg), freereg)
      ensures if T + F == {} then Now() == old(Now()) && r.kind == DischargeVars(e.kind) else r.kind.VNonReloc?
      ensures Grown(old(Now()), Now(), g.p0)
      ensures |k| <= |old(k)| + 1 && (T + F != {} ==> r.kind.VNonReloc?) && (old(Clean()) ==> Clean())
      ensures jl != {} ==> old(jl) != {} || T + F != {}
    {
      hide Linked, Denotes, Here, Grown, Means, View;
      GrownSelf(Now(), g.p0);
      SameHead(code, e.t, T, e.f, F);
      LinkedEnds(code, e.t, T, e.f, F);
      if HasJumps(e) {
        r := Exp2AnyReg(e, T, F, g);
      } else {
        VarsDischarged(Now(), m, nactvar, freereg, e, T, F, g);
        r := ExpDesc(DischargeVars(e.kind), e.t, e.f);
      }
    }

    /** luaK_exp2RK: a constant if its index fits, else a register. */
    method Exp2RK(e: ExpDesc, ghost T: set<nat>, ghost F: set<nat>, ghost g: Goal) returns (r: ExpDesc)
      requires Is(e, T, F, g) && !e.kind.Passed?
      requires e.kind.VNil? ==> |k| <= MAXINDEXRK && (T + F != {} ==> NilEmits(freereg))
      modifies this`code, this`jpc, this`jl, this`lasttarget, this`k, this`freereg
      ensures Is(r, {}, {}, g) && r.t == NO_JUMP == r.f && (r.kind.VNonReloc? || (r.kind.VK? && r.kind.info <= MAXINDEXRK))
      ensures Placed(e.kind, r.kind, old(freereg), freereg) && Grown(old(Now()), Now(), g.p0)
      ensures T + F == {} && (e.kind.VNonReloc? || (e.kind.VK? && e.kind.info <= MAXINDEXRK)) ==> Now() == old(Now()) && r.kind == e.kind
      ensures |k| <= |old(k)| + 1 && (old(Clean()) ==> Clean())
      ensures jl != {} ==> old(jl) != {} || T + F != {}
    {
      hide Linked, Denotes, Here, Grown, Means, View;
      ghost var x := Now();
      var d := Exp2Val(e, T, F, g);
      match d.kind {
        case VKNum(_) | VTrue | VFalse | VNil =>
          if |k| <= MAXINDEXRK {
            var v := match d.kind case VNil => Val.Nil case VKNum(n) => Num(n) case other => Bool(other.VTrue?);
            var info := AddK(v);
            r := ExpDesc(VK(info), d.t, d.f);
            ConstantInK(x, Now(), m, nactvar, freereg, d, g, v, info);
            return;
          }
        case VK(info) =>
          if info <= MAXINDEXRK { return d; }
        case _ =>
      }
      ghost var y := Now();
      r := Exp2AnyReg(d, {}, {}, g);
      GrownTrans(x, y, Now(), g.p0, g.p0);
    }

    // ---- Tests -----------------------------------------------------------------------------

    /** discharge2anyreg. */
    method Discharge2AnyReg(e: ExpDesc, ghost T: set<nat>, ghost F: set<nat>, ghost g: Goal) returns (d: ExpDesc)
      requires Is(e, T, F, g) && !e.kind.Passed? && !e.kind.VJmp? && !e.kind.VLocal? && (e.kind.VNil? ==> NilEmits(freereg))
      modifies this`code, this`jpc, this`jl, this`k, this`freereg
      ensures Is(d, T, F, g) && d == ExpDesc(d.kind, e.t, e.f) && Grown(old(Now()), Now(), g.p0)
      ensures if e.kind.VNonReloc? then d == e && Now() == old(Now()) && freereg == old(freereg)
              else d.kind == VNonReloc(old(freereg)) && freereg == old(freereg) + 1 && jl == {} && Temp(d.kind)
      ensures |k| <= |old(k)| + 1 && (d.kind.reg < nactvar || g.base <= d.kind.reg)
    {
      hide Linked, Denotes, Here, Grown, ExpOk, View;
      ghost var x := Now();
      KindFacts(x, m, nactvar, freereg, e, T, F, g);
      GrownSelf(x, g.p0);
      d := e;
      if !e.kind.VNonReloc? {
        ReserveRegs(1);
        MoreRegs(x, m, nactvar, freereg - 1, freereg, e, T, F, g);
        d := Discharge2Reg(e, freereg - 1, T, F, g);
      }
    }

    /** The case of jumponcond where the value is tested in a register. */
    method JumpOnValue(e: ExpDesc, cond: bool, ghost T: set<nat>, ghost F: set<nat>, ghost g: Goal) returns (j: nat)
      requires Is(e, T, F, g) && !e.kind.Passed? && !e.kind.VJmp? && !e.kind.VLocal?
      requires (e.kind.VNil? ==> NilEmits(freereg)) && (Temp(e.kind) ==> e.kind.reg + 1 == freereg)
      modifies this`code, this`jpc, this`jl, this`k, this`freereg
      ensures Loose(Now(), m, nactvar, freereg, e, T, F, g, !cond, j) && Grown(old(Now()), Now(), g.p0) && Base() && jl == {}
      ensures freereg == (if Temp(e.kind) then old(freereg) - 1 else old(freereg)) && |k| <= |old(k)| + 1
    {
      hide Linked, Denotes, Here, Grown, Means, View, Loose, Shape;
      ghost var x := Now();
      var d := e;
      d := Discharge2AnyReg(e, T, F, g);
      ghost var y, free := Now(), freereg;
      FreeExp(d.kind);
      ShapeLists(y, m, nactvar, free, d, T, F, g);
      j := CondJump(TestSet(NO_REG, d.kind.reg, cond));
      ValueTested(y, Now(), m, nactvar, free, freereg, d, T, F, g, cond);
      LooseJump(Now(), m, nactvar, freereg, d, T, F, g, !cond, j);
      GrownTrans(x, y, Now(), g.p0, g.p0);
      LooseKind(Now(), m, nactvar, freereg, d, e, T, F, g, !cond, j);
    }

    /** jumponcond: a jump for values that are true (cond) or false. A NOT in front is taken back
        and the sense of the test reversed. */
    method JumpOnCond(e: ExpDesc, cond: bool, ghost T: set<nat>, ghost F: set<nat>, ghost g: Goal) returns (j: nat)
      requires Is(e, T, F, g) && !e.kind.Passed? && !e.kind.VJmp? && !e.kind.VLocal?
      requires (e.kind.VNil? ==> NilEmits(freereg)) && (Temp(e.kind) ==> e.kind.reg + 1 == freereg)
      modifies this`code, this`jpc, this`jl, this`k, this`freereg
      ensures Loose(Now(), m, nactvar, freereg, e, T, F, g, !cond, j) && Grown(old(Now()), Now(), g.p0) && Base() && jl == {}
      ensures freereg == (if Temp(e.kind) then old(freereg) - 1 else old(freereg)) && |k| <= |old(k)| + 1
    {
      hide Linked, Denotes, Here, Grown, Means, View, Loose, Shape;
      ghost var x := Now();
      ShapeLists(x, m, nactvar, freereg, e, T, F, g);
      if e.kind.VReloc? {
        var ie := code[e.kind.pc];
        if ie.UnaryI? && ie.uop.Not? {
          LinkedBound(code, jpc, jl);
          code := code[..|code|-1];
          LinkedNone(code);
          PlainView(Now());
          j := CondJump(Test(ie.b, !cond));
          NotTested(x, Now(), m, nactvar, freereg, e, T, F, g, cond);
          LooseJump(Now(), m, nactvar, freereg, e, T, F, g, !cond, j);
          return;
        }
      }
      j := JumpOnValue(e, cond, T, F, g);
    }

    /** The end of luaK_goiftrue (b) and luaK_goiffalse: the jumps of J, if there are any, join their
        list, and those of the other list lead here. If the code is right so far it stays so. */
    method GoOn(d: ExpDesc, b: bool, pc: int, ghost right: bool, ghost J: set<nat>, ghost T: set<nat>, ghost F: set<nat>, ghost g: Goal)
      returns (r: ExpDesc, ghost L: set<nat>)
      requires Base() && Linked(code, d.t, T) && Linked(code, d.f, F) && Linked(code, pc, J) && AllApart(T, F, J, jl)
      requires right && J == {} ==> ExpOk(Now(), m, nactvar, freereg, ExpDesc(Passed(b), d.t, d.f), T, F, g)
      requires right && J != {} ==> pc >= 0 && J == {pc as nat} && Loose(Now(), m, nactvar, freereg, d, T, F, g, b, pc)
      modifies this`code, this`jpc, this`jl, this`lasttarget
      ensures right ==> Is(ExpDesc(Passed(b), r.t, r.f), if b then {} else L, if b then L else {}, g) && Grown(old(Now()), Now(), g.p0)
      ensures Base() && Linked(code, if b then r.f else r.t, L) && L == (if b then F else T) + J
      ensures old(jl) == {} ==> Rethreaded(old(code), code, if b then F else T)
      ensures r.kind == d.kind && (if b then r.t else r.f) == NO_JUMP && lasttarget == |code| && jl == old(jl) + (if b then T else F)
    {
      hide Linked, Denotes, Here, Grown, Means, View, Loose, Shape, KindOk, Rethreaded;
      ghost var y := Now();
      var list := Concat(if b then d.f else d.t, pc, if b then F else T, J);
      var e := ExpDesc(Passed(b), if b then d.t else list, if b then list else d.f);
      L := (if b then F else T) + J;
      ghost var T', F' := if b then T else L, if b then L else F;
      ghost var z := Now();
      if right {
        if J == {} {
          NoJumps(y.code, pc);
          ShapeLists(y, m, nactvar, freereg, ExpDesc(Passed(b), d.t, d.f), T, F, g);
          assert T' == T && F' == F;
          GrownSelf(y, g.p0);
        } else {
          Joined(y, z, m, nactvar, freereg, d, T, F, g, b, pc, list);
        }
      }
      RethreadedLinked(y.code, code, if b then F else T, jpc, jl);
      RethreadedLinked(y.code, code, if b then F else T, if b then d.t else d.f, if b then T else F);
      PatchToHere(if b then e.t else e.f, if b then T' else F');
      RethreadedLinked(z.code, code, z.jl, list, L);
      if right {
        Closed(z, Now(), m, nactvar, freereg, e, T', F', g, b);
        GrownTrans(y, z, Now(), g.p0, g.p0);
      }
      r := ExpDesc(d.kind, if b then NO_JUMP else list, if b then list else NO_JUMP);
      RethreadedTwice(y.code, z.code, code, if b then F else T, z.jl);
    }

    /** What is left of the code when a bare jump has taken over the jumps that waited for its place:
        it is right exactly if none of them leaves with another value than the constant. */
    ghost predicate TakenOver(x: St, b: bool, T: set<nat>, F: set<nat>, L: set<nat>, g: Goal)
      reads this
    {
      && L == (if b then F else T) + ({|x.code|} + x.jl) && jl == (if b then T else F) && |code| == |x.code| + 1 && k == x.k
      && ((forall q :: q in x.jl ==> q >= g.p0) ==>
            (Denotes(m, k, code, Passed(b), if b then T else L, if b then L else F, g.p0, g.base, g.a) <==>
             BareJump.Harmless(Code(m, k, x.code, T + F + x.jl), x.jl, g.p0, b)))
    }

    /** luaK_goiftrue: the code goes on for true values only, and a bare jump is emitted for false. */
    method GoIfTrue(e: ExpDesc, ghost T: set<nat>, ghost F: set<nat>, ghost g: Goal) returns (r: ExpDesc, ghost L: set<nat>)
      requires Is(e, T, F, g) && !e.kind.Passed? && (e.kind.VNil? ==> NilEmits(freereg)) && (Temp(e.kind) ==> e.kind.reg + 1 == freereg)
      requires e.kind.VK? ==> e.kind.info < |k| && !Falsy(k[e.kind.info])
      modifies this`code, this`jpc, this`jl, this`lasttarget, this`k, this`freereg
      ensures (e.kind.VFalse? ==> old(jl) == {}) ==> Is(ExpDesc(Passed(true), r.t, r.f), {}, L, g) && Grown(old(Now()), Now(), g.p0)
      ensures e.kind.VFalse? && old(jl) != {} ==> TakenOver(old(Now()), true, T, F, L, g)
      ensures Base() && r.t == NO_JUMP && Linked(code, r.f, L)
      ensures jl != {} ==> T != {} || ((e.kind.VK? || e.kind.VKNum? || e.kind.VTrue?) && old(jl) != {})
      ensures freereg == (if Temp(e.kind) then old(freereg) - 1 else old(freereg)) && |k| <= |old(k)| + 1
      ensures lasttarget == |code| && (L == {} ==> e.kind.VK? || e.kind.VKNum? || e.kind.VTrue?)
    {
      hide Linked, Denotes, Here, Grown, Means, View, Loose, ExpOk, KindOk, Rethreaded;
      ghost var x, J: set<nat>, right := Now(), {}, !(e.kind.VFalse? && jl != {});
      VarsDischarged(x, m, nactvar, freereg, e, T, F, g);
      var d := ExpDesc(DischargeVars(e.kind), e.t, e.f);
      var pc := NO_JUMP;
      KindFacts(x, m, nactvar, freereg, e, T, F, g);
      GrownSelf(x, g.p0);
      if d.kind.VK? || d.kind.VKNum? || d.kind.VTrue? {
        ConstantPasses(x, m, nactvar, freereg, d, T, F, g, true);
      } else if d.kind.VFalse? {
        pc := Jump();
        J := {|x.code|} + x.jl;
        if right {
          Jumped(x, Now(), m, nactvar, freereg, d, T, F, g, true);
          assert J == {pc as nat};
        } else {
          BareLists(x, Now(), m, nactvar, freereg, d, T, F, g, pc, J);
        }
      } else if d.kind.VJmp? {
        pc := d.kind.pc;
        code := code[pc-1 := Invert(code[pc-1])];
        CompareTested(x, Now(), m, nactvar, freereg, d, T, F, g, true);
        J := {pc};
      } else {
        pc := JumpOnCond(d, false, T, F, g);
        J := {pc};
      }
      ghost var y := Now();
      if right { RightLists(y, m, nactvar, freereg, d, T, F, g, true, pc, J); }
      r, L := GoOn(d, true, pc, right, J, T, F, g);
      if right { GrownTrans(x, y, Now(), g.p0, g.p0); } else { TakesOver(x, m, nactvar, freereg, d, T, F, g, true, y.code, code); }
    }

    /** luaK_goiffalse: the code goes on for false values only, and a bare jump is emitted for true. */
    method GoIfFalse(e: ExpDesc, ghost T: set<nat>, ghost F: set<nat>, ghost g: Goal) returns (r: ExpDesc, ghost L: set<nat>)
      requires Is(e, T, F, g) && !e.kind.Passed? && (Temp(e.kind) ==> e.kind.reg + 1 == freereg)
      modifies this`code, this`jpc, this`jl, this`lasttarget, this`k, this`freereg
      ensures (e.kind.VTrue? ==> old(jl) == {}) ==> Is(ExpDesc(Passed(false), r.t, r.f), L, {}, g) && Grown(old(Now()), Now(), g.p0)
      ensures e.kind.VTrue? && old(jl) != {} ==> TakenOver(old(Now()), false, T, F, L, g)
      ensures Base() && r.f == NO_JUMP && Linked(code, r.t, L)
      ensures jl != {} ==> F != {} || ((e.kind.VNil? || e.kind.VFalse?) && old(jl) != {})
      ensures freereg == (if Temp(e.kind) then old(freereg) - 1 else old(freereg)) && |k| <= |old(k)| + 1
      ensures lasttarget == |code| && (L == {} ==> e.kind.VNil? || e.kind.VFalse?)
    {
      hide Linked, Denotes, Here, Grown, Means, View, Loose, ExpOk, KindOk, Rethreaded;
      ghost var x, J: set<nat>, right := Now(), {}, !(e.kind.VTrue? && jl != {});
      VarsDischarged(x, m, nactvar, freereg, e, T, F, g);
      var d := ExpDesc(DischargeVars(e.kind), e.t, e.f);
      var pc := NO_JUMP;
      KindFacts(x, m, nactvar, freereg, e, T, F, g);
      GrownSelf(x, g.p0);
      if d.kind.VNil? || d.kind.VFalse? {
        ConstantPasses(x, m, nactvar, freereg, d, T, F, g, false);
      } else if d.kind.VTrue? {
        pc := Jump();
        J := {|x.code|} + x.jl;
        if right {
          Jumped(x, Now(), m, nactvar, freereg, d, T, F, g, false);
          assert J == {pc as nat};
        } else {
          BareLists(x, Now(), m, nactvar, freereg, d, T, F, g, pc, J);
        }
      } else if d.kind.VJmp? {
        pc := d.kind.pc;
        assert code[pc-1 := code[pc-1]] == code;
        CompareTested(x, Now(), m, nactvar, freereg, d, T, F, g, false);
        J := {pc};
      } else {
        pc := JumpOnCond(d, true, T, F, g);
        J := {pc};
      }
      ghost var y := Now();
      if right { RightLists(y, m, nactvar, freereg, d, T, F, g, false, pc, J); }
      r, L := GoOn(d, false, pc, right, J, T, F, g);
      if right { GrownTrans(x, y, Now(), g.p0, g.p0); } else { TakesOver(x, m, nactvar, freereg, d, T, F, g, false, y.code, code); }
    }

    // ---- Operators -------------------------------------------------------------------------

    method RemoveBoth(t: int, f: int, ghost T: set<nat>, ghost F: set<nat>)
      requires Linked(code, t, T) && Linked(code, f, F)
      modifies this`code
      ensures code == Valueless(old(code), T + F)
    {
      RemoveValues(t, T);
      ValuelessLinked(old(code), T, f, F);
      RemoveValues(f, F);
      ValuelessBoth(old(code), T, F);
    }

    /** The case of codenot that needs an instruction. */
    method NegateValue(e: ExpDesc, ghost T: set<nat>, ghost F: set<nat>, ghost g: Goal) returns (r: ExpDesc)
      requires Is(e, T, F, g) && (e.kind.VReloc? || (e.kind.VNonReloc? && (Temp(e.kind) ==> e.kind.reg + 1 == freereg)))
      modifies this`code, this`jpc, this`jl, this`k, this`freereg
      ensures Is(r, F, T, g.(a := UnaryE(Not, g.a))) && Grown(old(Now()), Now(), g.p0) && r.kind.VReloc?
      ensures freereg == (if Temp(e.kind) then old(freereg) - 1 else old(freereg)) && |k| <= |old(k)| + 1
      ensures |code| > 0 && code[|code|-1].UnaryI? && jl == {}
    {
      hide Linked, Denotes, Here, Grown, Means, View, ExpOk, KindOk, Valueless;
      ghost var x := Now();
      KindFacts(x, m, nactvar, freereg, e, T, F, g);
      var d := Discharge2AnyReg(e, T, F, g);
      ghost var y, free := Now(), freereg;
      FreeExp(d.kind);
      var pc := CodeI(UnaryI(Not, 0, d.kind.reg));
      ghost var x1 := Now();
      BeforeNot(y, x1, m, nactvar, free, d, T, F, g, VReloc(pc));
      RemoveBoth(d.t, d.f, T, F);
      LastUnary(x1.code, T + F);
      NotDone(y, x1, Now(), m, nactvar, free, freereg, d, T, F, g, VReloc(pc));
      r := ExpDesc(VReloc(pc), e.f, e.t);
      KindFacts(Now(), m, nactvar, freereg, r, F, T, g.(a := UnaryE(Not, g.a)));
      GrownTrans(x, y, Now(), g.p0, g.p0);
    }

    /** codenot. */
    method CodeNot(e: ExpDesc, ghost T: set<nat>, ghost F: set<nat>, ghost g: Goal) returns (r: ExpDesc)
      requires Is(e, T, F, g) && !e.kind.Passed? && (Temp(e.kind) ==> e.kind.reg + 1 == freereg)
      requires e.kind.VK? ==> e.kind.info < |k| && !Falsy(k[e.kind.info])
      modifies this`code, this`jpc, this`jl, this`k, this`freereg
      ensures Is(r, F, T, g.(a := UnaryE(Not, g.a))) && Grown(old(Now()), Now(), g.p0) && NotKind(e.kind, r.kind)
      ensures freereg == (if Temp(e.kind) then old(freereg) - 1 else old(freereg)) && |k| <= |old(k)| + 1
      ensures old(Clean()) ==> Clean()
      ensures jl == {} || jl == old(jl)
    {
      hide Linked, Denotes, Here, Grown, Means, View, ExpOk, KindOk, Valueless;
      ghost var x := Now();
      VarsDischarged(x, m, nactvar, freereg, e, T, F, g);
      var d := ExpDesc(DischargeVars(e.kind), e.t, e.f);
      KindFacts(x, m, nactvar, freereg, e, T, F, g);
      var kind := d.kind;
      if d.kind.VNil? || d.kind.VFalse? {
        kind := VTrue;
      } else if d.kind.VK? || d.kind.VKNum? || d.kind.VTrue? {
        kind := VFalse;
      } else if d.kind.VJmp? {
        code := code[d.kind.pc-1 := Invert(code[d.kind.pc-1])];
      } else {
        r := NegateValue(d, T, F, g);
        return;
      }
      ghost var x1 := Now();
      BeforeNot(x, x1, m, nactvar, freereg, d, T, F, g, kind);
      RemoveBoth(d.t, d.f, T, F);
      NotDone(x, x1, Now(), m, nactvar, freereg, freereg, d, T, F, g, kind);
      r := ExpDesc(kind, e.f, e.t);
      KindFacts(Now(), m, nactvar, freereg, r, F, T, g.(a := UnaryE(Not, g.a)));
      LastCode(x.code, x1.code, code, T + F);
    }

    /** The left operand after luaK_infix: a numeral, a constant, or a value in a register, which is
        that of a local or the first one above base. */
    predicate Waiting(e: ExpDesc, base: nat, free: nat) {
      && e.t == NO_JUMP == e.f
      && match e.kind
         case VNonReloc(r) => (r < nactvar && free == base) || (r == base && free == base + 1)
         case VK(i) => i <= MAXINDEXRK && free == base
         case VKNum(_) => free == base
         case _ => false
    }

    /** Both operands of an arithmetic operator as RK operands: the right one first. */
    method TwoRK(e1: ExpDesc, e2: ExpDesc, ghost x1: St, ghost g: Goal, ghost r: Expr, ghost T: set<nat>, ghost F: set<nat>)
      returns (d1: ExpDesc, d2: ExpDesc)
      requires Base() && Waiting(e1, g.base, freereg) && ExpOk(x1, m, nactvar, freereg, e1, {}, {}, g)
      requires Is(e2, T, F, Goal(|x1.code|, freereg, r)) && Grown(x1, Now(), |x1.code|) && !e2.kind.Passed? && !Temp(e2.kind)
      requires (e2.kind.VNil? ==> |k| <= MAXINDEXRK && (T + F != {} ==> NilEmits(freereg))) && LocalsBelow(r, nactvar)
      modifies this`code, this`jpc, this`jl, this`lasttarget, this`k, this`freereg
      ensures Base() && PairOk(Now(), m, nactvar, freereg, d1.kind, d2.kind, g.p0, g.base, g.a, r) && Grown(x1, Now(), g.p0)
      ensures (d1.kind.VNonReloc? || d1.kind.VK?) && (d2.kind.VNonReloc? || d2.kind.VK?) && Stacked(d1.kind, d2.kind, g.base, freereg)
      ensures |k| <= |old(k)| + 2 && (old(Clean()) ==> Clean())
    {
      hide Linked, Denotes, Denotes2, Here, Grown, View, ExpOk, KindOk, LocalsBelow, Held;
      ghost var x, base1 := Now(), freereg;
      ghost var g2 := Goal(|x1.code|, freereg, r);
      KindFacts(x1, m, nactvar, freereg, e1, {}, {}, g);
      KindFacts(x, m, nactvar, freereg, e2, T, F, g2);
      d2 := Exp2RK(e2, T, F, g2);
      ghost var x3, free3 := Now(), freereg;
      GrownTrans(x1, x, x3, |x1.code|, |x1.code|);
      KindFacts(x3, m, nactvar, free3, d2, {}, {}, g2);
      LocalsMore(r, nactvar, g.base);
      Paired(x1, x3, m, nactvar, base1, free3, e1, d2, g, base1, r);
      if Temp(e1.kind) {
        ghost var g3 := Goal(|x3.code|, g.base, Held(x3.k, e1.kind));
        HeldOk(x3, m, nactvar, free3, e1, g.base);
        d1 := Exp2RK(e1, {}, {}, g3);
      } else {
        ghost var g3 := Goal(|x3.code|, free3, Held(x3.k, e1.kind));
        HeldOk(x3, m, nactvar, free3, e1, free3);
        d1 := Exp2RK(e1, {}, {}, g3);
        KindFacts(Now(), m, nactvar, freereg, d1, {}, {}, g3);
        PairedMore(x3, Now(), m, nactvar, free3, freereg, e1.kind, d2.kind, g.p0, g.base, g.a, r, d1, free3);
        GrownTrans(x1, x3, Now(), g.p0, |x3.code|);
      }
    }

    /** The temporaries of two operands lie on top of the register stack, in either order. */
    predicate Stacked(k1: Kind, k2: Kind, base: nat, free: nat) {
      if Temp(k1) && Temp(k2) then ((k1.reg == base && k2.reg == base + 1) || (k1.reg == base + 1 && k2.reg == base)) && free == base + 2
      else if Temp(k1) then k1.reg == base && free == base + 1
      else if Temp(k2) then k2.reg == base && free == base + 1
      else free == base
    }

    /** codearith for a binary operator. */
    method CodeArith(op: ArithOp, e1: ExpDesc, e2: ExpDesc, ghost x1: St, ghost g: Goal, ghost r: Expr, ghost T: set<nat>, ghost F: set<nat>)
      returns (e: ExpDesc)
      requires Base() && Waiting(e1, g.base, freereg) && ExpOk(x1, m, nactvar, freereg, e1, {}, {}, g)
      requires Is(e2, T, F, Goal(|x1.code|, freereg, r)) && Grown(x1, Now(), |x1.code|) && !e2.kind.Passed? && !Temp(e2.kind)
      requires (e2.kind.VNil? ==> |k| <= MAXINDEXRK && (T + F != {} ==> NilEmits(freereg))) && LocalsBelow(r, nactvar)
      modifies this`code, this`jpc, this`jl, this`lasttarget, this`k, this`freereg
      ensures Is(e, {}, {}, Goal(g.p0, g.base, ArithE(op, g.a, r))) && freereg == g.base && Grown(x1, Now(), g.p0)
      ensures (e.kind.VKNum? || e.kind.VReloc?) && |k| <= |old(k)| + 2 && (old(Clean()) ==> Clean())
      ensures if e.kind.VKNum? then IsNumeral(e1) && IsNumeral(e2) && jl == old(jl) else jl == {}
    {
      hide Linked, Denotes, Denotes2, Here, Grown, View, ExpOk, KindOk, LocalsBelow, PairOk;
      if IsNumeral(e1) && IsNumeral(e2) {
        var folded := Fold(m, op, e1.kind.nval, e2.kind.nval);
        if folded.Some? {
          e := ExpDesc(VKNum(folded.value), NO_JUMP, NO_JUMP);
          NumeralsFolded(x1, Now(), m, nactvar, freereg, e1, e2, T, F, op, g, r);
          return;
        }
      }
      var d1, d2 := TwoRK(e1, e2, x1, g, r, T, F);
      var o1, o2 := RKOf(d1.kind), RKOf(d2.kind);
      ghost var x, free := Now(), freereg;
      PairFacts(x, m, nactvar, free, d1.kind, d2.kind, g.p0, g.base, g.a, r);
      if RKNum(o1) > RKNum(o2) {
        FreeExp(d1.kind);
        FreeExp(d2.kind);
      } else {
        FreeExp(d2.kind);
        FreeExp(d1.kind);
      }
      var pc := CodeI(ArithI(op, 0, o1, o2));
      e := ExpDesc(VReloc(pc), NO_JUMP, NO_JUMP);
      ArithEmitted(x, Now(), m, nactvar, free, freereg, d1.kind, d2.kind, g.p0, g.base, g.a, r, op);
      GrownTrans(x1, x, Now(), g.p0, g.p0);
    }

    /** Both operands of a comparison: the left one first, which has been dealt with already. */
    method LeftThenRight(e1: ExpDesc, e2: ExpDesc, ghost x1: St, ghost g: Goal, ghost r: Expr, ghost T: set<nat>, ghost F: set<nat>)
      returns (d1: ExpDesc, d2: ExpDesc)
      requires Base() && Waiting(e1, g.base, freereg) && !e1.kind.VKNum? && ExpOk(x1, m, nactvar, freereg, e1, {}, {}, g)
      requires Is(e2, T, F, Goal(|x1.code|, freereg, r)) && Grown(x1, Now(), |x1.code|) && !e2.kind.Passed? && !Temp(e2.kind)
      requires (e2.kind.VNil? ==> |k| <= MAXINDEXRK && (T + F != {} ==> NilEmits(freereg))) && LocalsBelow(r, nactvar)
      modifies this`code, this`jpc, this`jl, this`lasttarget, this`k, this`freereg
      ensures Base() && PairOk(Now(), m, nactvar, freereg, d1.kind, d2.kind, g.p0, g.base, g.a, r) && Grown(x1, Now(), g.p0)
      ensures (d1.kind.VNonReloc? || d1.kind.VK?) && (d2.kind.VNonReloc? || d2.kind.VK?) && Stacked(d1.kind, d2.kind, g.base, freereg)
      ensures Temp(d1.kind) ==> d1.kind.reg == g.base
      ensures |k| <= |old(k)| + 1 && (old(Clean()) ==> Clean())
    {
      hide Linked, Denotes, Denotes2, Here, Grown, View, ExpOk, KindOk, LocalsBelow, Held, NoTest;
      ghost var y, base1, g2 := Now(), freereg, Goal(|x1.code|, freereg, r);
      KindFacts(x1, m, nactvar, freereg, e1, {}, {}, g);
      KindFacts(y, m, nactvar, freereg, e2, T, F, g2);
      EndsInNoTest(y, m, nactvar, freereg, e2, T, F, g2);
      ghost var b := if Temp(e1.kind) then g.base else freereg;
      GrownConstants(x1, y, |x1.code|);
      HeldOk(y, m, nactvar, freereg, e1, b);
      d1 := Exp2RK(e1, {}, {}, Goal(|code|, b, Held(k, e1.kind)));
      d2 := Exp2RK(e2, T, F, g2);
      ghost var x, free := Now(), freereg;
      GrownTrans(x1, y, x, |x1.code|, |x1.code|);
      KindFacts(x, m, nactvar, free, d2, {}, {}, g2);
      LocalsMore(r, nactvar, g.base);
      Paired(x1, x, m, nactvar, base1, free, e1, d2, g, base1, r);
    }

    /** codecomp. */
    method CodeComp(op: RelOp, e1: ExpDesc, e2: ExpDesc, ghost x1: St, ghost g: Goal, ghost r: Expr, ghost T: set<nat>, ghost F: set<nat>)
      returns (e: ExpDesc)
      requires Base() && Waiting(e1, g.base, freereg) && !e1.kind.VKNum? && ExpOk(x1, m, nactvar, freereg, e1, {}, {}, g)
      requires Is(e2, T, F, Goal(|x1.code|, freereg, r)) && Grown(x1, Now(), |x1.code|) && !e2.kind.Passed? && !Temp(e2.kind)
      requires (e2.kind.VNil? ==> |k| <= MAXINDEXRK && (T + F != {} ==> NilEmits(freereg))) && LocalsBelow(r, nactvar)
      modifies this`code, this`jpc, this`jl, this`lasttarget, this`k, this`freereg
      ensures Is(e, {}, {}, Goal(g.p0, g.base, RelE(op, g.a, r))) && freereg == g.base && Grown(x1, Now(), g.p0)
      ensures e.kind.VJmp? && jl == {} && |k| <= |old(k)| + 2 && (old(Clean()) ==> Clean())
    {
      hide Linked, Denotes, Denotes2, Here, Grown, View, ExpOk, KindOk, LocalsBelow, PairOk, CompareOf;
      var d1, d2 := LeftThenRight(e1, e2, x1, g, r, T, F);
      ghost var x, free := Now(), freereg;
      PairFacts(x, m, nactvar, free, d1.kind, d2.kind, g.p0, g.base, g.a, r);
      FreeExp(d2.kind);
      FreeExp(d1.kind);
      var j := CondJump(CompareOf(op, RKOf(d1.kind), RKOf(d2.kind)));
      e := ExpDesc(VJmp(j), NO_JUMP, NO_JUMP);
      CompEmitted(x, Now(), m, nactvar, free, freereg, d1.kind, d2.kind, g.p0, g.base, g.a, r, op);
      GrownTrans(x1, x, Now(), g.p0, g.p0);
    }

    /** luaK_prefix for minus and length. */
    method CodeUnary(op: UnaryOp, e: ExpDesc, ghost T: set<nat>, ghost F: set<nat>, ghost g: Goal) returns (r: ExpDesc)
      requires Is(e, T, F, g) && !op.Not? && !e.kind.Passed? && !Temp(e.kind) && (e.kind.VNil? ==> NilEmits(freereg)) && Sane(m) && freereg == g.base
      modifies this`code, this`jpc, this`jl, this`lasttarget, this`k, this`freereg
      ensures Is(r, {}, {}, g.(a := UnaryE(op, g.a))) && Grown(old(Now()), Now(), g.p0) && freereg == g.base
      ensures if r.kind.VKNum? then op.Unm? && IsNumeral(e) && jl == old(jl) else r.kind.VReloc? && jl == {}
      ensures |k| <= |old(k)| + 1 && (old(Clean()) ==> Clean())
    {
      hide Linked, Denotes, Here, Grown, View, ExpOk, KindOk;
      ghost var x := Now();
      KindFacts(x, m, nactvar, freereg, e, T, F, g);
      GrownSelf(x, g.p0);
      if op.Unm? && IsNumeral(e) {
        ShapeLists(x, m, nactvar, freereg, e, T, F, g);
        LinkedBound(code, NO_JUMP, T);
        LinkedBound(code, NO_JUMP, F);
        r := ExpDesc(VKNum(m.neg(e.kind.nval)), NO_JUMP, NO_JUMP);
        FoldedNeg(x, m, nactvar, freereg, e.kind.nval, g);
        return;
      }
      var d := Exp2AnyReg(e, T, F, g);
      ghost var y, free := Now(), freereg;
      KindFacts(y, m, nactvar, free, d, {}, {}, g);
      FreeExp(d.kind);
      var pc := CodeI(UnaryI(op, 0, d.kind.reg));
      r := ExpDesc(VReloc(pc), NO_JUMP, NO_JUMP);
      UnaryEmitted(y, Now(), m, nactvar, free, freereg, d.kind.reg, g, op);
      GrownTrans(x, y, Now(), g.p0, g.p0);
    }

    /** luaK_posfix for `and` (b) and `or`: the exits of the left operand join those of the right one. */
    method JoinExits(b: bool, d: ExpDesc, e2: ExpDesc, ghost x1: St, ghost L: set<nat>, ghost T: set<nat>, ghost F: set<nat>,
                     ghost p0: nat, ghost base: nat, ghost l: Expr, ghost r: Expr)
      returns (e: ExpDesc, ghost T': set<nat>, ghost F': set<nat>)
      requires ExpOk(x1, m, nactvar, freereg, ExpDesc(Passed(b), d.t, d.f), if b then {} else L, if b then L else {}, Goal(p0, base, l))
      requires Is(e2, T, F, Goal(|x1.code|, base, r)) && Grown(x1, Now(), |x1.code|) && LocalsBelow(r, base)
      requires !e2.kind.Passed? && !Temp(e2.kind) && freereg == base
      modifies this`code
      ensures Is(e, T', F', Goal(p0, base, if b then And(l, r) else Or(l, r))) && Grown(x1, Now(), p0)
      ensures e.kind == DischargeVars(e2.kind) && !Temp(e.kind) && (old(Clean()) ==> Clean()) && (old(NilEmits(freereg)) ==> NilEmits(freereg))
      ensures T' == (if b then T else T + L) && (F' == if b then F + L else F) && |code| == |old(code)|
      ensures IsNumeral(e) ==> L == {} && IsNumeral(e2)
    {
      hide Linked, Denotes, Here, Grown, View, ExpOk, KindOk, LocalsBelow;
      ghost var y := Now();
      KindFacts(y, m, nactvar, freereg, e2, T, F, Goal(|x1.code|, base, r));
      VarsDischarged(y, m, nactvar, freereg, e2, T, F, Goal(|x1.code|, base, r));
      var v := ExpDesc(DischargeVars(e2.kind), e2.t, e2.f);
      ShapeLists(y, m, nactvar, freereg, v, T, F, Goal(|x1.code|, base, r));
      ExitsWait(x1, y, m, nactvar, freereg, d, b, L, Goal(p0, base, l), v, T, F, r);
      var h := Concat(if b then v.f else v.t, if b then d.f else d.t, if b then F else T, L);
      e := ExpDesc(v.kind, if b then v.t else h, if b then h else v.f);
      T', F' := if b then T else T + L, if b then F + L else F;
      Branched(x1, y, Now(), m, nactvar, freereg, freereg, b, L, ExpDesc(Passed(b), d.t, d.f), v, T, F, p0, base, l, r, h);
      KindFacts(Now(), m, nactvar, freereg, e, T', F', Goal(p0, base, if b then And(l, r) else Or(l, r)));
      LastThreaded(y.code, code, if b then F else T);
      NoExits(y.code, code, e2.t, e2.f, T, F, h, b, L);
    }

    // ---- subexpr ---------------------------------------------------------------------------

    /** The state in which an expression may begin. Nil operands need room in the constant table, and
        a nil inside that is loaded into a register an instruction of its own. */
    ghost predicate Ready(a: Expr)
      reads this
    {
      && Base() && NoTest(code) && nactvar <= freereg && Fine(m, nactvar, a, jl != {}) && Sane(m)
      && (NilOperand(a) ==> |k| + Size(a) <= MAXINDEXRK) && (LoadsNil(a) ==> Clean())
    }

    /** What a whole expression leaves: its value is not in a temporary yet. */
    ghost predicate Whole(e: ExpDesc, T: set<nat>, F: set<nat>, g: Goal)
      reads this
    {
      && Is(e, T, F, g) && freereg == g.base && !e.kind.Passed? && !Temp(e.kind)
      && (e.kind.VK? ==> e.kind.info < |k| && !Falsy(k[e.kind.info])) && EndsLike(e.kind, EndOf(g.a))
      && (T != {} ==> Exits(g.a, true)) && (F != {} ==> Exits(g.a, false)) && (IsNumeral(e) ==> MayFold(g.a))
    }

    /** simpleexp. */
    method SimpleExp(a: Expr) returns (e: ExpDesc)
      requires Base() && NoTest(code) && nactvar <= freereg && (a.Const? || a.Local?)
      requires LocalsBelow(a, nactvar) && Literals(m, a)
      modifies this`k
      ensures Whole(e, {}, {}, Goal(|code|, freereg, a)) && Grown(old(Now()), Now(), |code|) && |k| <= |old(k)| + 1
      ensures jl != {} ==> JumpsWait(a, old(jl) != {})
      ensures a == Const(Val.Nil) ==> e.kind.VNil? && Now() == old(Now())
    {
      hide Linked, Denotes, Here;
      ghost var x := Now();
      var kind: Kind;
      match a {
        case Local(i) => kind := VLocal(i);
        case Const(Nil) => kind := VNil;
        case Const(Bool(b)) => kind := if b then VTrue else VFalse;
        case Const(Num(n)) => kind := VKNum(n);
        case Const(Other(id)) =>
          var i := AddK(Other(id));
          kind := VK(i);
      }
      e := ExpDesc(kind, NO_JUMP, NO_JUMP);
      LeafOk(Now(), m, nactvar, freereg, kind, freereg, a);
    }

    /** subexpr, for a tree that the priorities have given: the code computes the value of a from
        any registers, and changes none below the first free one. */
    method Expr(a: Expr) returns (e: ExpDesc, ghost T: set<nat>, ghost F: set<nat>)
      requires Ready(a)
      modifies this`code, this`jpc, this`jl, this`lasttarget, this`k, this`freereg
      ensures Whole(e, T, F, Goal(|old(code)|, old(freereg), a)) && Grown(old(Now()), Now(), |old(code)|)
      ensures jl != {} ==> JumpsWait(a, old(jl) != {})
      ensures |k| <= |old(k)| + Size(a) && (old(Clean()) ==> Clean())
      ensures e.kind.VNil? ==> a == Const(Val.Nil) || NilEmits(freereg)
      ensures a == Const(Val.Nil) ==> e.kind.VNil? && T + F == {} && Now() == old(Now()) && lasttarget == old(lasttarget)
      decreases a, 3
    {
      hide Linked, Denotes, Here, Grown, View, ExpOk, Fine;
      FineParts(m, nactvar, a, jl != {});
      match a
      case Const(_) =>
        e := SimpleExp(a);
        T, F := {}, {};
      case Local(_) =>
        e := SimpleExp(a);
        T, F := {}, {};
      case UnaryE(op, b) =>
        e, T, F := Prefix(op, b);
      case ArithE(op, l, r) =>
        e := Arithmetic(op, l, r);
        T, F := {}, {};
      case RelE(op, l, r) =>
        e := Relation(op, l, r);
        T, F := {}, {};
      case And(l, r) =>
        e, T, F := Logic(true, l, r);
      case Or(l, r) =>
        e, T, F := Logic(false, l, r);
    }

    /** An operand and luaK_prefix. */
    method Prefix(op: UnaryOp, b: Expr) returns (e: ExpDesc, ghost T: set<nat>, ghost F: set<nat>)
      requires Ready(UnaryE(op, b))
      modifies this`code, this`jpc, this`jl, this`lasttarget, this`k, this`freereg
      ensures Whole(e, T, F, Goal(|old(code)|, old(freereg), UnaryE(op, b))) && Grown(old(Now()), Now(), |old(code)|)
      ensures jl != {} ==> JumpsWait(UnaryE(op, b), old(jl) != {})
      ensures |k| <= |old(k)| + Size(UnaryE(op, b)) && (old(Clean()) ==> Clean()) && !e.kind.VNil?
      decreases UnaryE(op, b), 0
    {
      hide Linked, Denotes, Here, Grown, View, ExpOk, Fine, NilOperand, LoadsNil, Size, Base;
      ghost var x, p0, base := Now(), |code|, freereg;
      OperandsAsk(UnaryE(op, b));
      FineParts(m, nactvar, UnaryE(op, b), jl != {});
      OperatorEnds(UnaryE(op, b));
      e, T, F := Expr(b);
      ghost var y, g := Now(), Goal(p0, base, b);
      if op.Not? {
        e := CodeNot(e, T, F, g);
        T, F := F, T;
      } else {
        e := CodeUnary(op, e, T, F, g);
        T, F := {}, {};
      }
      GrownTrans(x, y, Now(), p0, p0);
    }

    /** The left operand of an arithmetic operator, or of a comparison, and luaK_infix. */
    method LeftOperand(l: Expr, arithmetic: bool) returns (e: ExpDesc)
      requires Ready(l) && (EndOf(l) == EndsNil ==> |k| + Size(l) <= MAXINDEXRK)
      modifies this`code, this`jpc, this`jl, this`lasttarget, this`k, this`freereg
      ensures Is(e, {}, {}, Goal(|old(code)|, old(freereg), l)) && Waiting(e, old(freereg), freereg)
      ensures Grown(old(Now()), Now(), |old(code)|) && NoTest(code) && nactvar <= freereg
      ensures e.kind.VKNum? ==> arithmetic && MayFold(l) && (jl != {} ==> JumpsWait(l, old(jl) != {}))
      ensures jl != {} ==> JumpsWait(l, old(jl) != {}) || LeavesEarly(l)
      ensures |k| <= |old(k)| + Size(l) + 1 && (old(Clean()) ==> Clean())
      decreases l, 4
    {
      hide Linked, Denotes, Here, Grown, View, ExpOk, Fine, JumpsWait, Exits, LeavesEarly;
      ghost var x, g := Now(), Goal(|code|, freereg, l);
      ghost var T, F;
      e, T, F := Expr(l);
      ghost var y := Now();
      OperandWaits(l);
      if arithmetic && IsNumeral(e) {
        NumeralLists(y, m, nactvar, freereg, e, T, F, g);
      } else {
        e := Exp2RK(e, T, F, g);
      }
      FactsBetween(y, Now(), m, nactvar, freereg, e, g);
      GrownTrans(x, y, Now(), g.p0, g.p0);
    }

    /** The operands of an arithmetic operator or a comparison, with luaK_infix between them. */
    method Operands(a: Expr, l: Expr, r: Expr) returns (e1: ExpDesc, e2: ExpDesc, ghost x1: St, ghost T: set<nat>, ghost F: set<nat>)
      requires Ready(a) && (a.ArithE? || a.RelE?) && l == a.l && r == a.r
      modifies this`code, this`jpc, this`jl, this`lasttarget, this`k, this`freereg
      ensures Base() && Waiting(e1, old(freereg), freereg) && (e1.kind.VKNum? ==> a.ArithE? && MayFold(l))
      ensures ExpOk(x1, m, nactvar, freereg, e1, {}, {}, Goal(|old(code)|, old(freereg), l)) && Grown(old(Now()), x1, |old(code)|)
      ensures Is(e2, T, F, Goal(|x1.code|, freereg, r)) && Grown(x1, Now(), |x1.code|) && !e2.kind.Passed? && !Temp(e2.kind)
      ensures (e2.kind.VNil? ==> |k| <= MAXINDEXRK && (T + F != {} ==> NilEmits(freereg))) && LocalsBelow(r, nactvar)
      ensures IsNumeral(e2) ==> MayFold(r)
      ensures (jl != {} ==> JumpsWait(r, x1.jl != {})) && (e1.kind.VKNum? && x1.jl != {} ==> JumpsWait(l, old(jl) != {}))
      ensures |k| + 2 <= |old(k)| + Size(a) && (old(Clean()) ==> Clean())
      decreases a, 0
    {
      hide Linked, Denotes, Here, Grown, View, ExpOk, Fine, JumpsWait, JumpsWaitBetween, Exits, LeavesEarly, EndOf, MayFold, NilOperand, LoadsNil, Size,
        Base, EndsLike, Waiting, Temp;
      ghost var x, p0, w := Now(), |code|, jl != {};
      OperandsAsk(a);
      FineParts(m, nactvar, a, w);
      e1 := LeftOperand(l, a.ArithE?);
      x1 := Now();
      FineLess(m, nactvar, r, JumpsWait(l, w) || LeavesEarly(l), jl != {});
      e2, T, F := Expr(r);
      NilEnds(e2.kind, EndOf(r));
    }

    /** Such operands and luaK_posfix. */
    method Arithmetic(op: ArithOp, l: Expr, r: Expr) returns (e: ExpDesc)
      requires Ready(ArithE(op, l, r))
      modifies this`code, this`jpc, this`jl, this`lasttarget, this`k, this`freereg
      ensures Whole(e, {}, {}, Goal(|old(code)|, old(freereg), ArithE(op, l, r))) && Grown(old(Now()), Now(), |old(code)|)
      ensures jl != {} ==> JumpsWait(ArithE(op, l, r), old(jl) != {})
      ensures |k| <= |old(k)| + Size(ArithE(op, l, r)) && (old(Clean()) ==> Clean()) && !e.kind.VNil?
      decreases ArithE(op, l, r), 1
    {
      hide Linked, Denotes, Here, Grown, View, ExpOk, Fine, JumpsWait, JumpsWaitBetween, Exits, LeavesEarly, EndOf, MayFold, NilOperand, LoadsNil, Size;
      ghost var x, g := Now(), Goal(|code|, freereg, l);
      OperatorEnds(ArithE(op, l, r));
      ghost var w := jl != {};
      var e1, e2, x1, T, F := Operands(ArithE(op, l, r), l, r);
      e := CodeArith(op, e1, e2, x1, g, r, T, F);
      if jl != {} { FoldWaits(ArithE(op, l, r), w, x1.jl != {}); }
      GrownTrans(x, x1, Now(), g.p0, g.p0);
    }

    /** The same for a comparison. */
    method Relation(op: RelOp, l: Expr, r: Expr) returns (e: ExpDesc)
      requires Ready(RelE(op, l, r))
      modifies this`code, this`jpc, this`jl, this`lasttarget, this`k, this`freereg
      ensures Whole(e, {}, {}, Goal(|old(code)|, old(freereg), RelE(op, l, r))) && Grown(old(Now()), Now(), |old(code)|)
      ensures jl != {} ==> JumpsWait(RelE(op, l, r), old(jl) != {})
      ensures |k| <= |old(k)| + Size(RelE(op, l, r)) && (old(Clean()) ==> Clean()) && !e.kind.VNil?
      decreases RelE(op, l, r), 1
    {
      hide Linked, Denotes, Here, Grown, View, ExpOk, Fine, JumpsWait, JumpsWaitBetween, Exits, LeavesEarly, EndOf, MayFold, NilOperand, LoadsNil, Size;
      ghost var x, g := Now(), Goal(|code|, freereg, l);
      OperatorEnds(RelE(op, l, r));
      var e1, e2, x1, T, F := Operands(RelE(op, l, r), l, r);
      e := CodeComp(op, e1, e2, x1, g, r, T, F);
      GrownTrans(x, x1, Now(), g.p0, g.p0);
    }

    /** The left operand of `and` (b) or `or`, and luaK_infix. */
    method LeftOfLogic(b: bool, l: Expr) returns (d: ExpDesc, ghost L: set<nat>)
      requires Ready(l) && (EndOf(l) == (if b then EndsFalse else EndsTrue) ==> !JumpsWait(l, jl != {}))
      requires b && l == Const(Val.Nil) ==> NilEmits(freereg)
      modifies this`code, this`jpc, this`jl, this`lasttarget, this`k, this`freereg
      ensures Is(ExpDesc(Passed(b), d.t, d.f), if b then {} else L, if b then L else {}, Goal(|old(code)|, old(freereg), l))
      ensures Grown(old(Now()), Now(), |old(code)|) && freereg == old(freereg) && NoTest(code)
      ensures |k| <= |old(k)| + Size(l) + 1 && (old(Clean()) ==> Clean())
      ensures jl != {} ==> JumpsWaitBetween(l, b, old(jl) != {})
      ensures (L == {} ==> Passes(EndOf(l), b)) && lasttarget == |code|
      decreases l, 4
    {
      hide Linked, Denotes, Here, Grown, View, ExpOk, Fine, Exits, JumpsWait, JumpsWaitBetween;
      ghost var x, g, w := Now(), Goal(|code|, freereg, l), jl != {};
      ghost var T, F;
      d, T, F := Expr(l);
      ghost var y, kind := Now(), d.kind;
      if b {
        d, L := GoIfTrue(d, T, F, g);
      } else {
        d, L := GoIfFalse(d, T, F, g);
      }
      ExitsWaitBetween(l, b, w);
      if jl != {} && (if b then T else F) == {} { WaitBetween(l, b, w, kind); }
      FactsBetween2(y, Now(), m, nactvar, freereg, ExpDesc(Passed(b), d.t, d.f), if b then {} else L, if b then L else {}, g);
      GrownTrans(x, y, Now(), g.p0, g.p0);
    }

    /** The operands of `and` (b) or `or`, with luaK_infix between them. */
    method LogicOperands(b: bool, a: Expr, l: Expr, r: Expr)
      returns (d: ExpDesc, e: ExpDesc, ghost x1: St, ghost L: set<nat>, ghost T: set<nat>, ghost F: set<nat>)
      requires Ready(a) && a == if b then And(l, r) else Or(l, r)
      modifies this`code, this`jpc, this`jl, this`lasttarget, this`k, this`freereg
      ensures ExpOk(x1, m, nactvar, freereg, ExpDesc(Passed(b), d.t, d.f), if b then {} else L, if b then L else {}, Goal(|old(code)|, old(freereg), l))
      ensures Whole(e, T, F, Goal(|x1.code|, old(freereg), r)) && Grown(x1, Now(), |x1.code|) && Grown(old(Now()), x1, |old(code)|)
      ensures LocalsBelow(r, old(freereg)) && (L == {} ==> Passes(EndOf(l), b))
      ensures jl != {} ==> JumpsWait(a, old(jl) != {})
      ensures |k| <= |old(k)| + Size(a) && (old(Clean()) ==> Clean()) && (e.kind.VNil? ==> NilEmits(freereg))
      decreases a, 0
    {
      hide Linked, Denotes, Here, Grown, View, ExpOk, Fine, JumpsWait, JumpsWaitBetween, Exits, LeavesEarly, EndOf, MayFold, NilOperand, LoadsNil, Size;
      ghost var base, w := freereg, jl != {};
      FineParts(m, nactvar, a, w);
      OperandsAsk(a);
      d, L := LeftOfLogic(b, l);
      x1 := Now();
      FineLess(m, nactvar, r, JumpsWaitBetween(l, b, w), jl != {});
      e, T, F := Expr(r);
      WaitBehind(l, r, b, w, x1.jl != {});
      LocalsMore(r, nactvar, base);
    }

    /** Such operands and luaK_posfix. */
    method Logic(b: bool, l: Expr, r: Expr) returns (e: ExpDesc, ghost T: set<nat>, ghost F: set<nat>)
      requires Ready(if b then And(l, r) else Or(l, r))
      modifies this`code, this`jpc, this`jl, this`lasttarget, this`k, this`freereg
      ensures Whole(e, T, F, Goal(|old(code)|, old(freereg), if b then And(l, r) else Or(l, r))) && Grown(old(Now()), Now(), |old(code)|)
      ensures jl != {} ==> JumpsWait(if b then And(l, r) else Or(l, r), old(jl) != {})
      ensures |k| <= |old(k)| + Size(if b then And(l, r) else Or(l, r)) && (old(Clean()) ==> Clean()) && (e.kind.VNil? ==> NilEmits(freereg))
      decreases if b then And(l, r) else Or(l, r), 1
    {
      hide Linked, Denotes, Here, Grown, View, ExpOk, Fine, JumpsWait, JumpsWaitBetween, Exits, LeavesEarly, EndOf, MayFold, NilOperand, LoadsNil, Size;
      ghost var x, p0, base, w := Now(), |code|, freereg, jl != {};
      OperatorEnds(if b then And(l, r) else Or(l, r));
      var d, e2, x1, L, T2, F2 := LogicOperands(b, if b then And(l, r) else Or(l, r), l, r);
      ExitsBehind(l, r, b);
      e, T, F := JoinExits(b, d, e2, x1, L, T2, F2, p0, base, l, r);
      GrownTrans(x, x1, Now(), p0, p0);
    }

    /** subexpr and luaK_exp2nextreg: run from any registers, the code leaves the value of a in the
        first free register and all registers below as they were, or fails where a does. */
    method Expression(a: Expr) returns (e: ExpDesc)
      requires Ready(a)
      modifies this`code, this`jpc, this`jl, this`lasttarget, this`k, this`freereg
      ensures freereg == old(freereg) + 1 && e == ExpDesc(VNonReloc(old(freereg)), NO_JUMP, NO_JUMP) && Base()
      ensures (a == Const(Val.Nil) ==> old(NilEmits(freereg))) ==>
        Computes(m, k, View(Now()), |old(code)|, old(freereg), a) && Grown(old(Now()), Now(), |old(code)|)
      ensures a == Const(Val.Nil) && !old(NilEmits(freereg)) ==> NilSaved(old(Now()), old(freereg))
    {
      hide Linked, Denotes, Here, Grown, View, ExpOk, Fine;
      ghost var x, g := Now(), Goal(|code|, freereg, a);
      var d, T, F := Expr(a);
      ghost var y := Now();
      ghost var saved := d.kind.VNil? && !NilEmits(freereg);
      e := Exp2NextReg(d, T, F, g);
      if !saved {
        GrownTrans(x, y, Now(), g.p0, g.p0);
        ComputesIn(Now(), m, nactvar, freereg, e, g);
      }
    }

    /** The tests in the code for `((x or y) and false) and z`: what the code generator does up to
        luaK_goiftrue on `(x or y) and false`. */
    method LostTests(x: nat, y: nat) returns (f: int)
      requires Base() && Now() == St([], NO_JUMP, {}, [])
      modifies this`code, this`jpc, this`jl, this`lasttarget
      ensures Base() && jl == {} && |code| == 5 && Linked(code, f, {3, 4, 1}) && k == []
      ensures code[0] == TestSet(NO_REG, x, true) && code[1].Jmp? && code[2] == TestSet(NO_REG, y, false) && code[3].Jmp? && code[4].Jmp?
    {
      hide Linked, View;
      PlainView(Now());
      // luaK_infix for the first operator: luaK_goiffalse on x
      var t := CondJump(TestSet(NO_REG, x, true));
      PlainView(Now());
      LinkedNone(code);
      PatchToHere(NO_JUMP, {});
      PlainView(Now());
      // luaK_infix for the second one: luaK_goiftrue on y
      f := CondJump(TestSet(NO_REG, y, false));
      assert code == [TestSet(NO_REG, x, true), Jmp(NO_JUMP), TestSet(NO_REG, y, false), Jmp(NO_JUMP)];
      LinkedOne(code, 1);
      LinkedOne(code, 3);
      PatchToHere(t, {1});
      // luaK_infix for the third one: luaK_goiftrue on false
      ghost var before := code;
      var j := Jump();
      forall q | 0 <= q < 4 ensures code[q] == before[q] { assert code[..4][q] == before[q]; }
      LinkedOne(code, 3);
      assert {4} + {1} == {4, 1};
      f := Concat(f, j, {3}, {4, 1});
      assert {3} + {4, 1} == {3, 4, 1};
      LinkedNone(code);
      PatchToHere(NO_JUMP, {});
    }

    /** The rest of it: z, and luaK_exp2nextreg. */
    method LostValue(x: nat, y: nat, z: nat)
      requires Base() && Now() == St([], NO_JUMP, {}, []) && x < nactvar && y < nactvar && z < nactvar && nactvar <= freereg
      modifies this`code, this`jpc, this`jl, this`lasttarget, this`freereg
      ensures View(Now()) == LostCode(x, y, z, old(freereg)) && freereg == old(freereg) + 1
    {
      hide Linked, Here, Patched, View, LostCode, PatchCell;
      var f := LostTests(x, y);
      ghost var tests := code;
      ReserveRegs(1);
      var reg := freereg - 1;
      PlainView(Now());
      var pc := CodeI(Move(reg, z));
      var pf, pt, raw := PlaceLabels(ExpDesc(VNonReloc(reg), NO_JUMP, f), reg);
      assert code == tests + [Move(reg, z)] + raw;
      assert raw[1..][0] == raw[1] && raw[1..][1] == raw[2];
      GetLabel();
      LostJumps(tests, code, f);
      LostPatched(code, x, y, z, reg, code[1].sbx, code[3].sbx, code[4].sbx);
      PatchListAux(f, |code|, Some(reg), pf, {3, 4, 1});
      ViewIsHere(Now());
    }
  }

  /** The LOADNIL in front can be extended. */
  predicate NilJoins(i: Instr, from: nat) { i.LoadNil? && i.a <= from <= i.last + 1 }

  function NilJoined(i: Instr, from: nat, n: nat): Instr
    requires NilJoins(i, from) && n > 0
  {
    if from + n - 1 > i.last then LoadNil(i.a, from + n - 1) else i
  }

  /** Where luaK_nil extends the instruction in front, that instruction now also does what the one
      it saves would have done. */
  lemma NilMeaning(s: Regs, i: Instr, from: nat, n: nat)
    requires NilJoins(i, from) && n > 0
    ensures SetNils(s, NilJoined(i, from, n).a, NilJoined(i, from, n).last) == SetNils(SetNils(s, i.a, i.last), from, from + n - 1)
  {
    var u := SetNils(s, i.a, i.last);
    NilsAt(s, i.a, i.last);
    NilsAt(u, from, from + n - 1);
    NilsAt(s, i.a, NilJoined(i, from, n).last);
  }

  lemma {:induction false} NilsAt(s: Regs, a: nat, last: nat)
    ensures var t := SetNils(s, a, last);
      && (forall r :: r in t <==> (r in s || a <= r <= last))
      && (forall r :: r in t ==> t[r] == if a <= r <= last then Val.Nil else s[r])
    decreases if last < a then 0 else last - a + 1
  {
    if a <= last {
      var u := s[a := Val.Nil];
      NilsAt(u, a + 1, last);
      assert SetNils(s, a, last) == SetNils(u, a + 1, last);
      assert forall r :: r in u <==> (r in s || r == a);
    }
  }

  /** The instruction that discharge2reg makes of a value. */
  function LoadOf(x: St, kind: Kind, reg: nat, at: nat): Instr {
    match kind
    case VNil => LoadNil(reg, reg)
    case VFalse => LoadBool(reg, false, false)
    case VTrue => LoadBool(reg, true, false)
    case VK(info) => LoadK(reg, info)
    case VKNum(_) => LoadK(reg, at)
    case VReloc(pc) => if pc < |x.code| then SetA(x.code[pc], reg) else Otherwise
    case VNonReloc(from) => Move(reg, from)
    case VLocal(from) => Move(reg, from)
    case _ => Otherwise
  }

  lemma DischargedTo(x: St, x': St, m: Semantics, nact: nat, free: nat, e: ExpDesc, T: set<nat>, F: set<nat>, g: Goal, reg: nat, at: nat)
    requires ExpOk(x, m, nact, free, e, T, F, g) && !e.kind.Passed? && !e.kind.VJmp? && g.base <= reg < free
    requires x.k <= x'.k && (e.kind.VKNum? ==> at < |x'.k| && x'.k[at] == Num(e.kind.nval))
    requires if e.kind.VReloc? then x' == x.(code := x.code[e.kind.pc := LoadOf(x, e.kind, reg, at)])
             else x' == Emit(x.(k := x'.k), LoadOf(x, e.kind, reg, at))
    ensures ExpOk(x', m, nact, free, ExpDesc(VNonReloc(reg), e.t, e.f), T, F, g) && Grown(x, x', g.p0) && x'.jl == {}
  {
    var i := LoadOf(x, e.kind, reg, at);
    LoadOfLoads(x, x'.k, m, nact, free, e, T, F, g, reg, at);
    DischargedCode(x, x', m, nact, free, e, T, F, g, reg, at);
    hide ExpOk, Loads, LoadOf, View, Emit;
    Loaded(x, x', m, nact, free, free, e, T, F, g, i);
  }

  lemma DischargedCode(x: St, x': St, m: Semantics, nact: nat, free: nat, e: ExpDesc, T: set<nat>, F: set<nat>, g: Goal, reg: nat, at: nat)
    requires Shape(x, m, nact, free, e, T, F, g) && !e.kind.Passed? && !e.kind.VJmp?
    requires if e.kind.VReloc? then x' == x.(code := x.code[e.kind.pc := LoadOf(x, e.kind, reg, at)])
             else x' == Emit(x.(k := x'.k), LoadOf(x, e.kind, reg, at))
    ensures x'.code == View(x)[..End(e.kind, |x.code|)] + [LoadOf(x, e.kind, reg, at)] && x'.jl == {} && x'.jpc == NO_JUMP
  {
    hide Linked, Here, LoadOf;
    if e.kind.VReloc? {
      PlainView(x);
      LinkedBound(x.code, x.jpc, x.jl);
    } else {
      assert View(x)[..|x.code|] == View(x);
    }
  }

  lemma LoadOfLoads(x: St, k': seq<Val>, m: Semantics, nact: nat, free: nat, e: ExpDesc, T: set<nat>, F: set<nat>, g: Goal, reg: nat, at: nat)
    requires ExpOk(x, m, nact, free, e, T, F, g) && !e.kind.Passed? && !e.kind.VJmp? && x.k <= k'
    requires e.kind.VKNum? ==> at < |k'| && k'[at] == Num(e.kind.nval)
    ensures Loads(m, x.k, View(x), e.kind, k', LoadOf(x, e.kind, reg, at)) && LoadOf(x, e.kind, reg, at).a == reg
  {
    hide Linked, Denotes, Here, Arith, Unary;
    if e.kind.VReloc? {
      PlainView(x);
      KOkAt(m, x.k, View(x), e.kind, T, F, g.p0, g.base, g.a, e.kind.pc);
      OperandsStay(m, x.k, k', x.code[e.kind.pc], reg);
    }
  }

  lemma OperandsStay(m: Semantics, k: seq<Val>, k': seq<Val>, i: Instr, reg: nat)
    requires (i.ArithI? || i.UnaryI?) && KOk(i, |k|) && k <= k'
    ensures KOk(SetA(i, reg), |k'|)
    ensures forall s: Regs :: ValueOf(m, k', SetA(i, reg), s) == ValueOf(m, k, i, s)
  {
    hide Arith, Unary;
  }

  /** The jump over the labels is a list on its own. */
  lemma LabelList(code: seq<Instr>, n: nat, fj: int, J: set<nat>)
    requires if J == {} then fj == NO_JUMP else fj == n && J == {n} && n < |code| && code[n] == Jmp(NO_JUMP)
    ensures Linked(code, fj, J)
  {
    if J == {} { LinkedNone(code); } else { LinkedOne(code, n); }
  }

  /** The lists of a value and the jump over the labels, while the first list is patched. */
  lemma TwoLists(code: seq<Instr>, raw: seq<Instr>, t: int, T: set<nat>, f: int, F: set<nat>, jpc: int, jl: set<nat>, final: int, reg: nat, pf: int)
    requires Linked(code, t, T) && Linked(code, f, F) && T !! F && Linked(code + raw, jpc, jl) && forall q :: q in jl ==> q >= |code|
    ensures Linked(code + raw, f, F) && forall q :: q in T || q in F ==> q !in jl
    ensures var p := Patched(code + raw, F, final, Some(reg), To(pf));
      Linked(p, t, T) && Linked(p, jpc, jl)
  {
    LinkedBoth(code, t, T, f, F);
    LinkedFrame(code, code + raw, t, T);
    LinkedFrame(code, code + raw, f, F);
    PatchedLinked(code + raw, F, final, Some(reg), To(pf), t, T);
    PatchedLinked(code + raw, F, final, Some(reg), To(pf), jpc, jl);
  }

  lemma JumpOfCompare(code: seq<Instr>, code': seq<Instr>, pc: nat, T: set<nat>)
    requires 0 < pc < |code| && code[pc-1].Compare? && Rethreaded(code, code', T)
    ensures !YieldsValue(code', pc)
  {
  }

  lemma LinkedEnds(code: seq<Instr>, t: int, T: set<nat>, f: int, F: set<nat>)
    ensures Linked(code, NO_JUMP, {})
    ensures Linked(code, t, T) && Linked(code, f, F) && T + F == {} ==> t == NO_JUMP == f
  {
    LinkedNone(code);
    if Linked(code, t, T) && Linked(code, f, F) && T + F == {} {
      LinkedBound(code, t, T);
      LinkedBound(code, f, F);
    }
  }

  /** luaK_dischargevars: a local is a value in a register. */
  lemma VarsDischarged(x: St, m: Semantics, nact: nat, free: nat, e: ExpDesc, T: set<nat>, F: set<nat>, g: Goal)
    requires ExpOk(x, m, nact, free, e, T, F, g) && !e.kind.Passed?
    ensures ExpOk(x, m, nact, free, ExpDesc(DischargeVars(e.kind), e.t, e.f), T, F, g)
  {
    hide Linked, Denotes, Here;
    if e.kind.VLocal? { Rekinded(x, x, m, nact, free, e, T, F, g, VNonReloc(e.kind.reg)); }
  }

  lemma ConstantInK(x: St, x': St, m: Semantics, nact: nat, free: nat, d: ExpDesc, g: Goal, v: Val, info: nat)
    requires ExpOk(x, m, nact, free, d, {}, {}, g) && (d.kind.VKNum? || d.kind.VTrue? || d.kind.VFalse? || d.kind.VNil?)
    requires v == match d.kind case VNil => Val.Nil case VKNum(n) => Num(n) case other => Bool(other.VTrue?)
    requires x' == x.(k := x'.k) && x.k <= x'.k && info < |x'.k| && x'.k[info] == v
    ensures ExpOk(x', m, nact, free, ExpDesc(VK(info), d.t, d.f), {}, {}, g) && Grown(x, x', g.p0)
  {
    hide Linked, Denotes, Here;
    Rekinded(x, x', m, nact, free, d, {}, {}, g, VK(info));
  }

  lemma MoreRegs(x: St, m: Semantics, nact: nat, free: nat, free': nat, e: ExpDesc, T: set<nat>, F: set<nat>, g: Goal)
    requires ExpOk(x, m, nact, free, e, T, F, g) && free <= free'
    ensures ExpOk(x, m, nact, free', e, T, F, g)
  {
    hide Linked, Means;
  }

  /** The test for a NOT that is taken back. */
  lemma NotTested(x: St, x': St, m: Semantics, nact: nat, free: nat, e: ExpDesc, T: set<nat>, F: set<nat>, g: Goal, cond: bool)
    requires ExpOk(x, m, nact, free, e, T, F, g) && e.kind.VReloc? && x.code[e.kind.pc].UnaryI? && x.code[e.kind.pc].uop.Not?
    requires x'.code == x.code[..|x.code|-1] + [Test(x.code[e.kind.pc].b, !cond), Jmp(NO_JUMP)] && x'.jl == {} && x'.jpc == NO_JUMP && x'.k == x.k
    ensures Loose(x', m, nact, free, e, T, F, g, !cond, |x'.code| - 1) && Grown(x, x', g.p0)
  {
    hide Linked, Denotes, Here, Loose, Grown;
    PlainView(x);
    Tested(x, x', m, nact, free, free, e, T, F, g, Test(x.code[e.kind.pc].b, !cond), !cond);
  }

  lemma ValueTested(x: St, x': St, m: Semantics, nact: nat, free: nat, free': nat, e: ExpDesc, T: set<nat>, F: set<nat>, g: Goal, cond: bool)
    requires ExpOk(x, m, nact, free, e, T, F, g) && e.kind.VNonReloc? && g.base <= free'
    requires x'.code == View(x) + [TestSet(NO_REG, e.kind.reg, cond), Jmp(NO_JUMP)] && x'.jl == {} && x'.jpc == NO_JUMP && x'.k == x.k
    ensures Loose(x', m, nact, free', e, T, F, g, !cond, |x'.code| - 1) && Grown(x, x', g.p0)
  {
    hide Linked, Denotes, Here, Loose, Grown;
    assert View(x)[..|x.code|] == View(x);
    Tested(x, x', m, nact, free, free', e, T, F, g, TestSet(NO_REG, e.kind.reg, cond), !cond);
  }

  /** A comparison, inverted (b) or not, is its own test. */
  lemma CompareTested(x: St, x': St, m: Semantics, nact: nat, free: nat, e: ExpDesc, T: set<nat>, F: set<nat>, g: Goal, b: bool)
    requires ExpOk(x, m, nact, free, e, T, F, g) && e.kind.VJmp?
    requires var pc := e.kind.pc; x' == x.(code := x.code[pc-1 := if b then Invert(x.code[pc-1]) else x.code[pc-1]])
    ensures Loose(x', m, nact, free, e, T, F, g, b, e.kind.pc) && Grown(x, x', g.p0)
  {
    hide Linked, Denotes, Here, Loose, Grown, GetRK;
    PlainView(x);
    var pc := e.kind.pc;
    var i := if b then Invert(x.code[pc-1]) else x.code[pc-1];
    KOkAt(m, x.k, View(x), e.kind, T, F, g.p0, g.base, g.a, pc - 1);
    LinkedBound(x.code, x.jpc, x.jl);
    assert x'.code == View(x)[..pc-1] + [i, Jmp(NO_JUMP)];
    Tested(x, x', m, nact, free, free, e, T, F, g, i, b);
  }

  lemma LooseJump(x: St, m: Semantics, nact: nat, free: nat, e: ExpDesc, T: set<nat>, F: set<nat>, g: Goal, b: bool, j: nat)
    requires Loose(x, m, nact, free, e, T, F, g, b, j)
    ensures j + 1 == |x.code| && x.jl == {} && Linked(x.code, x.jpc, x.jl)
  {
  }

  lemma LooseKind(x: St, m: Semantics, nact: nat, free: nat, d: ExpDesc, e: ExpDesc, T: set<nat>, F: set<nat>, g: Goal, b: bool, j: nat)
    requires Loose(x, m, nact, free, d, T, F, g, b, j) && d.t == e.t && d.f == e.f
    ensures Loose(x, m, nact, free, e, T, F, g, b, j)
  {
  }

  lemma ShapeLists(x: St, m: Semantics, nact: nat, free: nat, e: ExpDesc, T: set<nat>, F: set<nat>, g: Goal)
    requires ExpOk(x, m, nact, free, e, T, F, g)
    ensures Linked(x.code, e.t, T) && Linked(x.code, e.f, F) && Linked(x.code, x.jpc, x.jl) && T !! F && (T + F) !! x.jl && NoTest(x.code)
    ensures KindOk(x, m, nact, free, e.kind, T + F, g.base) && nact <= g.base <= free && g.p0 <= |x.code|
  {
  }

  lemma NoJumps(code: seq<Instr>, pc: int)
    requires Linked(code, pc, {})
    ensures pc == NO_JUMP
  {
    LinkedBound(code, pc, {});
  }

  lemma RethreadedTwice(x: seq<Instr>, y: seq<Instr>, z: seq<Instr>, A: set<nat>, B: set<nat>)
    requires Rethreaded(x, y, A) && Rethreaded(y, z, B)
    ensures Rethreaded(x, z, A + B) && (B == {} ==> Rethreaded(x, z, A))
  {
  }

  /** The lists at the end of luaK_goiftrue or luaK_goiffalse have no jumps in common. */
  predicate AllApart(T: set<nat>, F: set<nat>, J: set<nat>, jl: set<nat>) { T !! F && (T + F) !! J && (T + F + J) !! jl }

  lemma RightLists(y: St, m: Semantics, nact: nat, free: nat, d: ExpDesc, T: set<nat>, F: set<nat>, g: Goal, b: bool, pc: int, J: set<nat>)
    requires J == {} ==> pc == NO_JUMP && ExpOk(y, m, nact, free, ExpDesc(Passed(b), d.t, d.f), T, F, g)
    requires J != {} ==> pc >= 0 && J == {pc as nat} && Loose(y, m, nact, free, d, T, F, g, b, pc)
    ensures Linked(y.code, d.t, T) && Linked(y.code, d.f, F) && Linked(y.code, pc, J) && AllApart(T, F, J, y.jl) && Linked(y.code, y.jpc, y.jl)
  {
    hide Linked, Means;
    LinkedNone(y.code);
  }

  lemma BareLists(x: St, y: St, m: Semantics, nact: nat, free: nat, d: ExpDesc, T: set<nat>, F: set<nat>, g: Goal, pc: int, J: set<nat>)
    requires ExpOk(x, m, nact, free, d, T, F, g) && y.jl == {}
    requires |y.code| == |x.code| + 1 && y.code[..|x.code|] == x.code && J == {|x.code|} + x.jl && Linked(y.code, pc, J)
    ensures Linked(y.code, d.t, T) && Linked(y.code, d.f, F) && Linked(y.code, pc, J) && AllApart(T, F, J, y.jl)
  {
    hide Linked, Means;
    LinkedBound(x.code, d.t, T);
    LinkedBound(x.code, d.f, F);
    forall q | 0 <= q < |x.code| ensures y.code[q] == x.code[q] { assert y.code[..|x.code|][q] == x.code[q]; }
    LinkedFrame(x.code, y.code, d.t, T);
    LinkedFrame(x.code, y.code, d.f, F);
  }

  /** The bare jump after x, and what the threading of its list leaves of it. */
  lemma TakesOver(x: St, m: Semantics, nact: nat, free: nat, d: ExpDesc, T: set<nat>, F: set<nat>, g: Goal, b: bool, y: seq<Instr>, z: seq<Instr>)
    requires ExpOk(x, m, nact, free, d, T, F, g) && d.kind == BareJump.Constant(b)
    requires |y| == |x.code| + 1 && y[..|x.code|] == x.code && y[|x.code|].Jmp? && Rethreaded(y, z, if b then F else T)
    ensures |z| == |x.code| + 1
    ensures var L := (if b then F else T) + ({|x.code|} + x.jl);
      (forall q :: q in x.jl ==> q >= g.p0) ==>
        (Denotes(m, x.k, z, Passed(b), if b then T else L, if b then L else F, g.p0, g.base, g.a) <==>
         BareJump.Harmless(Code(m, x.k, x.code, T + F + x.jl), x.jl, g.p0, b))
  {
    hide Linked, Denotes, Here, BareJump.Harmless;
    if forall q :: q in x.jl ==> q >= g.p0 {
      var e := |x.code|;
      LinkedBound(x.code, x.jpc, x.jl);
      assert y == x.code + [Jmp(y[e].sbx)];
      BareJump.Exact(m, x.k, x.code, x.jl, b, T, F, g.p0, g.base, g.a, y[e].sbx);
      var L := (if b then F else T) + ({e} + x.jl);
      var T', F' := if b then T else T + x.jl + {e}, if b then F + x.jl + {e} else F;
      assert T' == (if b then T else L) && F' == if b then L else F;
      if Denotes(m, x.k, y, Passed(b), T', F', g.p0, g.base, g.a) { Relink(m, x.k, y, Passed(b), T', F', g.p0, g.base, g.a, z); }
      if Denotes(m, x.k, z, Passed(b), T', F', g.p0, g.base, g.a) { Relink(m, x.k, z, Passed(b), T', F', g.p0, g.base, g.a, y); }
    }
  }

  lemma ConstantPasses(x: St, m: Semantics, nact: nat, free: nat, e: ExpDesc, T: set<nat>, F: set<nat>, g: Goal, b: bool)
    requires ExpOk(x, m, nact, free, e, T, F, g)
    requires if b then e.kind.VTrue? || e.kind.VKNum? || (e.kind.VK? && e.kind.info < |x.k| && !Falsy(x.k[e.kind.info]))
             else e.kind.VNil? || e.kind.VFalse?
    ensures ExpOk(x, m, nact, free, ExpDesc(Passed(b), e.t, e.f), T, F, g)
  {
    hide ExpOk;
    Through(x, m, nact, free, e, T, F, g, b) by { ShapeEnd(x, m, nact, free, e, T, F, g); }
  }

  lemma ShapeEnd(x: St, m: Semantics, nact: nat, free: nat, e: ExpDesc, T: set<nat>, F: set<nat>, g: Goal)
    requires ExpOk(x, m, nact, free, e, T, F, g)
    ensures g.p0 <= End(e.kind, |x.code|) <= |x.code|
  {
  }

  lemma KindFacts(x: St, m: Semantics, nact: nat, free: nat, e: ExpDesc, T: set<nat>, F: set<nat>, g: Goal)
    requires ExpOk(x, m, nact, free, e, T, F, g)
    ensures e.kind.VLocal? ==> e.kind.reg < nact
    ensures e.kind.VJmp? ==> 0 < e.kind.pc < |x.code| && x.jl == {}
    ensures e.kind.VReloc? ==> e.kind.pc < |x.code| && x.jl == {}
    ensures e.kind.VK? ==> e.kind.info < |x.k|
    ensures e.kind.VKNum? ==> !m.isNan(e.kind.nval)
    ensures e.kind.VNonReloc? ==> e.kind.reg < nact || g.base <= e.kind.reg < free
    ensures Linked(x.code, x.jpc, x.jl) && nact <= g.base <= free && g.p0 <= |x.code|
  {
  }

  lemma ValuelessBoth(code: seq<Instr>, T: set<nat>, F: set<nat>)
    ensures Valueless(Valueless(code, T), F) == Valueless(code, T + F)
  {
  }

  /** What codenot makes of a kind. */
  predicate NotKind(kind: Kind, kind': Kind) {
    match kind
    case VNil => kind' == VTrue
    case VFalse => kind' == VTrue
    case VK(_) => kind' == VFalse
    case VKNum(_) => kind' == VFalse
    case VTrue => kind' == VFalse
    case VJmp(_) => kind' == kind
    case _ => kind'.VReloc?
  }

  /** What codenot does to the code before it removes the values of the jumps. */
  ghost predicate NotCode(x: St, x1: St, kind: Kind, kind': Kind) {
    match kind
    case VNil => x1 == x && kind' == VTrue
    case VFalse => x1 == x && kind' == VTrue
    case VK(i) => x1 == x && kind' == VFalse && i < |x.k| && !Falsy(x.k[i])
    case VKNum(_) => x1 == x && kind' == VFalse
    case VTrue => x1 == x && kind' == VFalse
    case VJmp(pc) => 0 < pc < |x.code| && x1 == x.(code := x.code[pc-1 := Invert(x.code[pc-1])]) && kind' == kind
    case VNonReloc(r) => x1 == Emit(x, UnaryI(Not, 0, r)) && kind' == VReloc(|x.code|)
    case _ => false
  }

  lemma BeforeNot(x: St, x1: St, m: Semantics, nact: nat, free: nat, e: ExpDesc, T: set<nat>, F: set<nat>, g: Goal, kind': Kind)
    requires ExpOk(x, m, nact, free, e, T, F, g) && NotCode(x, x1, e.kind, kind')
    ensures Linked(x1.code, e.t, T) && Linked(x1.code, e.f, F) && Linked(x1.code, x1.jpc, x1.jl)
    ensures x1.jl <= x.jl && (T + F) !! x1.jl && NoTest(x1.code) && x1.k == x.k
  {
    hide Denotes, Here, Linked;
    LinkedNone(x1.code);
    match e.kind
    case VJmp(_) =>
      LinkedFrame(x.code, x1.code, e.t, T);
      LinkedFrame(x.code, x1.code, e.f, F);
      LinkedBound(x.code, x.jpc, x.jl);
    case VNonReloc(r) =>
      EmitLinked(x, UnaryI(Not, 0, r), e.t, T);
      EmitLinked(x, UnaryI(Not, 0, r), e.f, F);
    case _ =>
  }

  lemma NotDone(x: St, x1: St, x': St, m: Semantics, nact: nat, free: nat, free': nat, e: ExpDesc, T: set<nat>, F: set<nat>, g: Goal, kind': Kind)
    requires ExpOk(x, m, nact, free, e, T, F, g) && NotCode(x, x1, e.kind, kind') && g.base <= free'
    requires x' == x1.(code := Valueless(x1.code, T + F))
    requires e.kind.VNonReloc? || free' == free
    ensures ExpOk(x', m, nact, free', ExpDesc(kind', e.f, e.t), F, T, g.(a := UnaryE(Not, g.a))) && Grown(x, x', g.p0)
  {
    hide ExpOk, Grown, NotCode, Here, Valueless;
    BeforeNot(x, x1, m, nact, free, e, T, F, g, kind');
    NotParts(x, x1, x', m, nact, free, free', e, T, F, g, kind');
    Negated(x, x1, x', m, nact, free, free', e, T, F, g, kind');
  }

  lemma NotParts(x: St, x1: St, x': St, m: Semantics, nact: nat, free: nat, free': nat, e: ExpDesc, T: set<nat>, F: set<nat>, g: Goal, kind': Kind)
    requires ExpOk(x, m, nact, free, e, T, F, g) && NotCode(x, x1, e.kind, kind') && g.base <= free'
    requires x' == x1.(code := Valueless(x1.code, T + F))
    requires e.kind.VNonReloc? || free' == free
    ensures var n := End(e.kind, |x.code|); n <= |x.code| && n == End(kind', |x1.code|) <= |x1.code| && View(x1)[..n] == View(x)[..n]
    ensures KindOk(x', m, nact, free', kind', T + F, g.base) && !e.kind.Passed? && !kind'.Passed?
    ensures forall q :: End(e.kind, |x.code|) <= q < |x1.code| ==> KOk(View(x1)[q], |x.k|)
    ensures forall s: Regs :: Fetch(Code(m, x'.k, View(x'), {}), kind', s) ==
               (var v := Fetch(Code(m, x.k, View(x), {}), e.kind, s); if v.None? then None else Some(Bool(Falsy(v.value))))
  {
    hide Linked, Denotes, Here, KOk, Valueless, Fetch;
    if e.kind.VJmp? {
      PlainView(x);
      PlainView(x1);
      PlainView(x');
      forall q | End(e.kind, |x.code|) <= q < |x1.code| ensures KOk(View(x1)[q], |x.k|) {
        KOkAt(m, x.k, View(x), e.kind, T, F, g.p0, g.base, g.a, q);
        InvertKOk(x.code[q], |x.k|);
      }
      NotCompare(m, x.k, x.code, T + F, e.kind.pc);
    } else if e.kind.VNonReloc? {
      EmitView(x, UnaryI(Not, 0, e.kind.reg), g.p0);
      PlainView(x');
      InvertKOk(UnaryI(Not, 0, e.kind.reg), |x.k|);
      NotValue(m, x.k, View(x), T + F, e.kind.reg);
    } else {
      NotConstant(m, x.k, View(x), View(x'), e.kind, kind');
    }
  }

  lemma NotConstant(m: Semantics, k: seq<Val>, at: seq<Instr>, at': seq<Instr>, kind: Kind, kind': Kind)
    requires NotKind(kind, kind') && (kind.VNil? || kind.VFalse? || kind.VTrue? || kind.VKNum? || (kind.VK? && kind.info < |k| && !Falsy(k[kind.info])))
    ensures forall s: Regs :: Fetch(Code(m, k, at', {}), kind', s) ==
               (var v := Fetch(Code(m, k, at, {}), kind, s); if v.None? then None else Some(Bool(Falsy(v.value))))
  {
  }

  lemma NotCompare(m: Semantics, k: seq<Val>, code: seq<Instr>, L: set<nat>, pc: nat)
    requires 0 < pc < |code| && code[pc-1].Compare?
    ensures var code' := Valueless(code[pc-1 := Invert(code[pc-1])], L);
      && code'[pc-1].Compare? && (code[pc].Jmp? ==> code'[pc] == code[pc])
      && forall s: Regs :: Fetch(Code(m, k, code', {}), VJmp(pc), s) ==
               (var v := Fetch(Code(m, k, code, {}), VJmp(pc), s); if v.None? then None else Some(Bool(Falsy(v.value))))
  {
    hide GetRK;
  }

  lemma NotValue(m: Semantics, k: seq<Val>, at: seq<Instr>, L: set<nat>, r: nat)
    ensures forall s: Regs :: Fetch(Code(m, k, Valueless(at + [UnaryI(Not, 0, r)], L), {}), VReloc(|at|), s) ==
               (var v := Fetch(Code(m, k, at, {}), VNonReloc(r), s); if v.None? then None else Some(Bool(Falsy(v.value))))
  {
    hide Get;
  }

  lemma InvertKOk(i: Instr, n: nat)
    ensures KOk(i, n) == KOk(Invert(i), n) && (i.UnaryI? ==> KOk(i, n))
  {
  }

  lemma LastCode(code: seq<Instr>, code1: seq<Instr>, code2: seq<Instr>, L: set<nat>)
    requires |code1| == |code| && (|code| > 0 ==> code1[|code|-1].LoadNil? == code[|code|-1].LoadNil?) && code2 == Valueless(code1, L)
    ensures |code2| == |code| && (|code| > 0 ==> code2[|code|-1].LoadNil? == code[|code|-1].LoadNil?)
  {
  }

  lemma LastUnary(code: seq<Instr>, L: set<nat>)
    requires |code| > 0 && code[|code|-1].UnaryI?
    ensures Valueless(code, L)[|code|-1].UnaryI?
  {
  }

  lemma LocalsMore(a: Expr, n: nat, n': nat)
    requires LocalsBelow(a, n) && n <= n'
    ensures LocalsBelow(a, n')
  {
  }

  lemma HeldOk(x: St, m: Semantics, nact: nat, free: nat, e: ExpDesc, base: nat)
    requires (e.kind.VNonReloc? && (e.kind.reg < nact || base <= e.kind.reg < free)) || (e.kind.VK? && e.kind.info < |x.k|) || (e.kind.VKNum? && !m.isNan(e.kind.nval))
    requires e.t == NO_JUMP == e.f && nact <= base <= free && Linked(x.code, x.jpc, x.jl) && NoTest(x.code)
    ensures ExpOk(x, m, nact, free, e, {}, {}, Goal(|x.code|, base, Held(x.k, e.kind)))
  {
    hide Linked, Denotes, Here;
    LeafOk(x, m, nact, free, e.kind, base, Held(x.k, e.kind));
  }

  lemma NumeralsFolded(x: St, y: St, m: Semantics, nact: nat, free: nat, e1: ExpDesc, e2: ExpDesc, T: set<nat>, F: set<nat>, op: ArithOp, g: Goal, r: Expr)
    requires ExpOk(x, m, nact, free, e1, {}, {}, g) && ExpOk(y, m, nact, free, e2, T, F, Goal(|x.code|, free, r)) && Grown(x, y, |x.code|)
    requires IsNumeral(e1) && IsNumeral(e2) && !m.isNan(m.num(op, e1.kind.nval, e2.kind.nval)) && LocalsBelow(r, nact)
    ensures ExpOk(y, m, nact, free, ExpDesc(VKNum(m.num(op, e1.kind.nval, e2.kind.nval)), NO_JUMP, NO_JUMP), {}, {}, Goal(g.p0, g.base, ArithE(op, g.a, r)))
    ensures Grown(x, y, g.p0)
  {
    hide Linked, Denotes, Here, Grown, View, ExpOk;
    KindFacts(x, m, nact, free, e1, {}, {}, g);
    ShapeLists(y, m, nact, free, e2, T, F, Goal(|x.code|, free, r));
    LinkedBound(y.code, NO_JUMP, T);
    LinkedBound(y.code, NO_JUMP, F);
    LocalsMore(r, nact, g.base);
    Paired(x, y, m, nact, free, free, e1, e2, g, free, r);
    hide PairOk;
    Folded(y, m, nact, free, e1.kind.nval, e2.kind.nval, op, g.p0, g.base, g.a, r);
  }

  lemma PairFacts(x: St, m: Semantics, nact: nat, free: nat, k1: Kind, k2: Kind, p0: nat, base: nat, l: Expr, r: Expr)
    requires PairOk(x, m, nact, free, k1, k2, p0, base, l, r)
    ensures Linked(x.code, x.jpc, x.jl) && nact <= base <= free && p0 <= |x.code|
  {
  }

  lemma GrownConstants(x: St, x': St, p0: nat)
    requires Grown(x, x', p0)
    ensures x.k <= x'.k
  {
  }

  lemma LastThreaded(code: seq<Instr>, code': seq<Instr>, A: set<nat>)
    requires Rethreaded(code, code', A)
    ensures |code'| == |code| && (|code| > 0 ==> code'[|code|-1].LoadNil? == code[|code|-1].LoadNil?)
  {
  }

  /** The exits of the left operand still wait when the right one is done. */
  lemma ExitsWait(x: St, y: St, m: Semantics, nact: nat, free: nat, d: ExpDesc, b: bool, L: set<nat>, g: Goal, e: ExpDesc, T: set<nat>, F: set<nat>, r: Expr)
    requires ExpOk(x, m, nact, free, ExpDesc(Passed(b), d.t, d.f), if b then {} else L, if b then L else {}, g)
    requires ExpOk(y, m, nact, free, e, T, F, Goal(|x.code|, g.base, r)) && Grown(x, y, |x.code|)
    ensures Linked(y.code, if b then d.f else d.t, L) && L !! T && L !! F && L !! y.jl
  {
    hide Linked, Means, Grown;
    Survives(x, y, |x.code|, if b then d.f else d.t, L);
  }

  lemma NumeralLists(x: St, m: Semantics, nact: nat, free: nat, e: ExpDesc, T: set<nat>, F: set<nat>, g: Goal)
    requires ExpOk(x, m, nact, free, e, T, F, g) && IsNumeral(e)
    ensures T == {} && F == {} && ExpOk(x, m, nact, free, e, {}, {}, g)
  {
    LinkedBound(x.code, NO_JUMP, T);
    LinkedBound(x.code, NO_JUMP, F);
  }

  /** What the right operand may rely on. */
  lemma FactsBetween(y: St, x: St, m: Semantics, nact: nat, free: nat, e: ExpDesc, g: Goal)
    requires ExpOk(x, m, nact, free, e, {}, {}, g)
    ensures NoTest(x.code) && g.p0 <= |x.code| && nact <= g.base <= free && Grown(x, x, |x.code|)
    ensures y == x ==> Grown(y, x, g.p0)
  {
    hide Linked, Means;
  }

  lemma FactsBetween2(y: St, x: St, m: Semantics, nact: nat, free: nat, e: ExpDesc, T: set<nat>, F: set<nat>, g: Goal)
    requires ExpOk(x, m, nact, free, e, T, F, g)
    ensures NoTest(x.code) && g.p0 <= |x.code| && nact <= g.base <= free
  {
    hide Linked, Means;
  }

  /** A run from the registers s ends well: with the value v in register reg and all registers
      below reg unchanged, or in an error if there is no value. */
  ghost predicate EndsWith(o: Outcome, s: Regs, reg: nat, v: Option<Val>) {
    if v.None? then o.Fail? else o.Fall? && Get(o.s, reg) == v.value && Agree(s, o.s, reg)
  }

  /** From any registers, a run from p0 ends with the value of a in register reg. */
  ghost predicate Computes(m: Semantics, k: seq<Val>, code: seq<Instr>, p0: nat, reg: nat, a: Expr) {
    p0 <= |code| && forall s: Regs :: EndsWith(Exec(Code(m, k, code, {}), p0, |code|, s), s, reg, Eval(m, a, s))
  }

  /** What the code for a comparison leaves, by the values of its operands: `l > r` compares that
      of r with that of l. */
  lemma ComparisonComputed(m: Semantics, k: seq<Val>, code: seq<Instr>, p0: nat, reg: nat, l: Expr, r: Expr, op: RelOp, s: Regs, v: Val, w: Val)
    requires Computes(m, k, code, p0, reg, RelE(op, l, r)) && Eval(m, l, s) == Some(v) && Eval(m, r, s) == Some(w)
    ensures var b := match op
      case EqR => m.cmp(Eq, v, w) case NeR => m.cmp(Eq, v, w)
      case LtR => m.cmp(Lt, v, w) case LeR => m.cmp(Le, v, w)
      case GtR => m.cmp(Lt, w, v) case GeR => m.cmp(Le, w, v);
      Leaves(Exec(Code(m, k, code, {}), p0, |code|, s), s, reg, if b.None? then None else Some(Bool(b.value != op.NeR?)))
  {
    hide Exec, Eval, Computes, Leaves;
    RelationMeaning(m, l, r, s, v, w);
    RelationMeaning(m, r, l, s, w, v);
    RunLeaves(m, k, code, p0, reg, RelE(op, l, r), s);
  }

  /** A run ended with the value v in register reg and the registers below as they were, or, if
      there is no value, with an error. */
  predicate Leaves(o: Outcome, s: Regs, reg: nat, v: Option<Val>) {
    if v.None? then o.Fail?
    else o.Fall? && (if reg in o.s then o.s[reg] == v.value else v.value == Nil) && forall q :: q < reg && q in s && s[q] != Nil ==> q in o.s && o.s[q] == s[q]
  }

  lemma RunLeaves(m: Semantics, k: seq<Val>, code: seq<Instr>, p0: nat, reg: nat, a: Expr, s: Regs)
    requires Computes(m, k, code, p0, reg, a)
    ensures Leaves(Exec(Code(m, k, code, {}), p0, |code|, s), s, reg, Eval(m, a, s))
  {
    hide Exec, Eval;
    var o := Exec(Code(m, k, code, {}), p0, |code|, s);
    assert EndsWith(o, s, reg, Eval(m, a, s));
    if o.Fall? {
      forall q | q < reg && q in s && s[q] != Nil ensures q in o.s && o.s[q] == s[q] { assert Get(o.s, q) == Get(s, q); }
    }
  }

  lemma ComputesIn(x: St, m: Semantics, nact: nat, free: nat, e: ExpDesc, g: Goal)
    requires ExpOk(x, m, nact, free, e, {}, {}, g) && e.kind == VNonReloc(g.base)
    ensures Computes(m, x.k, View(x), g.p0, g.base, g.a)
  {
    hide Linked, Denotes, Exec, View, Eval;
    forall s: Regs ensures EndsWith(Exec(Code(m, x.k, View(x), {}), g.p0, |View(x)|, s), s, g.base, Eval(m, g.a, s)) {
      OneOperand(m, x.k, View(x), e.kind, g.p0, g.base, g.a, s);
    }
  }

  lemma EndsInNoTest(x: St, m: Semantics, nact: nat, free: nat, e: ExpDesc, T: set<nat>, F: set<nat>, g: Goal)
    requires ExpOk(x, m, nact, free, e, T, F, g)
    ensures NoTest(x.code)
  {
  }

  // ---- Where the bare jump goes wrong ------------------------------------------------------

  /** The finished code for `((x or y) and false) and z`. The test of x leaves with its value for the
      end of the code, and not for the place where `false` goes on. */
  function LostCode(x: nat, y: nat, z: nat, reg: nat): seq<Instr> {
    [TestSet(reg, x, true), Jmp(7), TestSet(reg, y, false), Jmp(5), Jmp(2), Move(reg, z), Jmp(2),
     LoadBool(reg, false, true), LoadBool(reg, true, false)]
  }

  /** It gives the value of the expression exactly when x is false: for any other x it gives x, where
      the expression is false. */
  lemma BareJumpLosesValue(m: Semantics, x: nat, y: nat, z: nat, reg: nat, s: Regs)
    requires reg !in {x, y, z}
    ensures var o := Exec(Code(m, [], LostCode(x, y, z, reg), {}), 0, 9, s);
      var a := And(And(Or(Local(x), Local(y)), Const(Bool(false))), Local(z));
      o.Fall? && (Some(Get(o.s, reg)) == Eval(m, a, s) <==> Falsy(Get(s, x)))
  {
    var c := Code(m, [], LostCode(x, y, z, reg), {});
    var either := if Falsy(Get(s, x)) then Get(s, y) else Get(s, x);
    assert Eval(m, Or(Local(x), Local(y)), s) == Some(either);
    assert Eval(m, And(Or(Local(x), Local(y)), Const(Bool(false))), s) == Some(if Falsy(either) then either else Bool(false));
    if !Falsy(Get(s, x)) {
      assert Exec(c, 0, 9, s) == Exec(c, 9, 9, s[reg := Get(s, x)]);
    } else if Falsy(Get(s, y)) {
      assert Exec(c, 0, 9, s) == Exec(c, 2, 9, s) == Exec(c, 9, 9, s[reg := Get(s, y)]);
    } else {
      assert Exec(c, 0, 9, s) == Exec(c, 2, 9, s) == Exec(c, 4, 9, s) == Exec(c, 7, 9, s) == Exec(c, 9, 9, s[reg := Bool(false)]);
    }
  }

  lemma ViewIsHere(x: St)
    ensures View(x) == Here(x.code, x.jl)
  {
  }

  /** Three of its jumps while their targets are open. */
  lemma LostJumps(code: seq<Instr>, code': seq<Instr>, f: int)
    requires Linked(code, f, {3, 4, 1}) && |code| == 5 && |code'| >= 5 && code'[..5] == code
    ensures Linked(code', f, {3, 4, 1})
  {
    hide Linked;
    forall q | 0 <= q < 5 ensures code'[q] == code[q] { assert code'[..5][q] == code[q]; }
    LinkedFrame(code, code', f, {3, 4, 1});
  }

  lemma LostPatched(code: seq<Instr>, x: nat, y: nat, z: nat, reg: nat, j1: int, j3: int, j4: int)
    requires code == [TestSet(NO_REG, x, true), Jmp(j1), TestSet(NO_REG, y, false), Jmp(j3), Jmp(j4), Move(reg, z), Jmp(NO_JUMP),
                      LoadBool(reg, false, true), LoadBool(reg, true, false)]
    requires reg !in {x, y, z}
    ensures Here(Patched(code, {3, 4, 1}, 9, Some(reg), To(7)), {6}) == LostCode(x, y, z, reg)
  {
    var L: set<nat> := {3, 4, 1};
    var p := Patched(code, L, 9, Some(reg), To(7));
    LostCells(code, x, y, z, reg, L);
    hide Patched, Here, PatchCell;
    LastHere(p);
    assert p[6 := Jmp(2)] == LostCode(x, y, z, reg);
  }

  lemma LastHere(p: seq<Instr>)
    requires |p| == 9 && p[6].Jmp? && !p[5].TestSet?
    ensures Here(p, {6}) == p[6 := Jmp(2)]
  {
    var h := Here(p, {6});
    forall q | 0 <= q < 9 ensures h[q] == p[6 := Jmp(2)][q] { assert h[q] == PatchCell(p, {6}, 9, None, To(9), q); }
  }

  lemma LostCells(code: seq<Instr>, x: nat, y: nat, z: nat, reg: nat, L: set<nat>)
    requires |code| == 9 && code[0] == TestSet(NO_REG, x, true) && code[2] == TestSet(NO_REG, y, false) && code[5] == Move(reg, z)
    requires code[1].Jmp? && code[3].Jmp? && code[4].Jmp? && code[6] == Jmp(NO_JUMP)
    requires code[7] == LoadBool(reg, false, true) && code[8] == LoadBool(reg, true, false) && reg !in {x, y, z} && L == {3, 4, 1}
    ensures var p := Patched(code, L, 9, Some(reg), To(7));
      && p[0] == TestSet(reg, x, true) && p[1] == Jmp(7) && p[2] == TestSet(reg, y, false) && p[3] == Jmp(5) && p[4] == Jmp(2)
      && p[5] == Move(reg, z) && p[6] == Jmp(NO_JUMP) && p[7] == LoadBool(reg, false, true) && p[8] == LoadBool(reg, true, false)
  {
  }

  // ---- An expression on its own ------------------------------------------------------------

  /** No nil is written in the expression, and no numeral is NaN. */
  predicate ProperConstants(m: Semantics, a: Expr) {
    match a
    case Const(v) => !v.Nil? && (v.Num? ==> !m.isNan(v.n))
    case Local(_) => true
    case UnaryE(_, e) => ProperConstants(m, e)
    case ArithE(_, l, r) => ProperConstants(m, l) && ProperConstants(m, r)
    case RelE(_, l, r) => ProperConstants(m, l) && ProperConstants(m, r)
    case And(l, r) => ProperConstants(m, l) && ProperConstants(m, r)
    case Or(l, r) => ProperConstants(m, l) && ProperConstants(m, r)
  }

  lemma {:induction false} ProperIsFine(m: Semantics, a: Expr)
    requires ProperConstants(m, a)
    ensures EndOf(a) != EndsNil && !NilOperand(a) && !LoadsNil(a) && Literals(m, a)
    decreases a
  {
    match a
    case Const(_) =>
    case Local(_) =>
    case UnaryE(_, e) => ProperIsFine(m, e);
    case ArithE(_, l, r) => ProperIsFine(m, l); ProperIsFine(m, r);
    case RelE(_, l, r) => ProperIsFine(m, l); ProperIsFine(m, r);
    case And(l, r) => ProperIsFine(m, l); ProperIsFine(m, r);
    case Or(l, r) => ProperIsFine(m, l); ProperIsFine(m, r);
  }

  /** Any expression over `nact` locals with proper constants, none of which is an operand of `and`,
      `or` or `not`: compiled into an empty function, its code leaves the value of the expression in the
      register behind the locals. Jumps that wait at the end go to the next instruction. */
  method CompileAlone(m: Semantics, nact: nat, a: Expr) returns (fs: FuncState)
    requires LocalsBelow(a, nact) && NoConstantOperand(a) && ProperConstants(m, a) && forall n :: !m.isNan(n) ==> !m.isNan(m.neg(n))
    ensures fresh(fs) && Linked(fs.code, fs.jpc, fs.jl)
    ensures var code := Here(fs.code, fs.jl);
      forall s: Regs :: Leaves(Exec(Code(m, fs.k, code, {}), 0, |code|, s), s, nact, Eval(m, a, s))
  {
    hide Linked, Exec, Leaves, EndsWith, Eval, LocalsBelow, NoConstantOperand, ProperConstants, Literals, Plain, NilOperand, LoadsNil, EndOf, Here;
    fs := new FuncState(nact, nact, m);
    ProperIsFine(m, a);
    NoConstantOperandIsPlain(a, false);
    assert a != Const(Val.Nil) by { NilLiteral(); }
    var e := fs.Expression(a);
    ghost var code := Here(fs.code, fs.jl);
    assert code == View(fs.Now());
    forall s: Regs ensures Leaves(Exec(Code(m, fs.k, code, {}), 0, |code|, s), s, nact, Eval(m, a, s)) {
      RunLeaves(m, fs.k, code, 0, nact, a, s);
    }
  }

  lemma NilLiteral()
    ensures EndOf(Const(Val.Nil)) == EndsNil
  {
  }
}
