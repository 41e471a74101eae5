/** What an expression means, and what it means that partly generated code computes it. */
module ExprSem {
  import opened LuaVm

  datatype RelOp = EqR | NeR | LtR | LeR | GtR | GeR

  datatype Expr =
    | Const(v: Val)
    | Local(i: nat)
    | UnaryE(uop: UnaryOp, e: Expr)
    | ArithE(aop: ArithOp, l: Expr, r: Expr)
    | RelE(rop: RelOp, l: Expr, r: Expr)
    | And(l: Expr, r: Expr)
    | Or(l: Expr, r: Expr)

  /** `a > b` is `b < a`, and `a ~= b` is `not (a == b)`. */
  function Rel(m: Semantics, op: RelOp, v: Val, w: Val): Option<Val> {
    match op
    case EqR => Truth(m.cmp(Eq, v, w), true)
    case NeR => Truth(m.cmp(Eq, v, w), false)
    case LtR => Truth(m.cmp(Lt, v, w), true)
    case LeR => Truth(m.cmp(Le, v, w), true)
    case GtR => Truth(m.cmp(Lt, w, v), true)
    case GeR => Truth(m.cmp(Le, w, v), true)
  }

  function Truth(r: Option<bool>, wanted: bool): Option<Val> {
    if r.None? then None else Some(Bool(r.value == wanted))
  }

  /** The value of an expression over the registers that hold the locals; None is a runtime error. */
  function Eval(m: Semantics, a: Expr, s: Regs): Option<Val> {
    match a
    case Const(v) => Some(v)
    case Local(i) => Some(Get(s, i))
    case UnaryE(op, e) =>
      var v := Eval(m, e, s);
      if v.None? then None else Unary(m, op, v.value)
    case ArithE(op, l, r) =>
      var v := Eval(m, l, s);
      if v.None? then None else
      var w := Eval(m, r, s);
      if w.None? then None else Arith(m, op, v.value, w.value)
    case RelE(op, l, r) =>
      var v := Eval(m, l, s);
      if v.None? then None else
      var w := Eval(m, r, s);
      if w.None? then None else Rel(m, op, v.value, w.value)
    case And(l, r) =>
      var v := Eval(m, l, s);
      if v.None? || Falsy(v.value) then v else Eval(m, r, s)
    case Or(l, r) =>
      var v := Eval(m, l, s);
      if v.None? || !Falsy(v.value) then v else Eval(m, r, s)
  }

  // ---- What the language says about operators ----------------------------------------------

  /** The relational operators on operands that have the values v and w: `==`, `<` and `<=` give
      the boolean that the comparison of v with w has, `~=` the opposite of `==`, and `>` and `>=`
      are `<` and `<=` with the operands exchanged. */
  lemma RelationMeaning(m: Semantics, l: Expr, r: Expr, s: Regs, v: Val, w: Val)
    requires Eval(m, l, s) == Some(v) && Eval(m, r, s) == Some(w)
    ensures Eval(m, RelE(GtR, l, r), s) == Eval(m, RelE(LtR, r, l), s)
    ensures Eval(m, RelE(GeR, l, r), s) == Eval(m, RelE(LeR, r, l), s)
    ensures Eval(m, RelE(LtR, l, r), s) == if m.cmp(Lt, v, w).None? then None else Some(Bool(m.cmp(Lt, v, w).value))
    ensures Eval(m, RelE(LeR, l, r), s) == if m.cmp(Le, v, w).None? then None else Some(Bool(m.cmp(Le, v, w).value))
    ensures Eval(m, RelE(EqR, l, r), s) == if m.cmp(Eq, v, w).None? then None else Some(Bool(m.cmp(Eq, v, w).value))
    ensures Eval(m, RelE(NeR, l, r), s) == if m.cmp(Eq, v, w).None? then None else Some(Bool(!m.cmp(Eq, v, w).value))
  {
  }

  /** The arithmetic operators take the left value first, numbers and metamethods alike; the unary
      operators too see the value of their operand. */
  lemma ArithmeticMeaning(m: Semantics, l: Expr, r: Expr, s: Regs, v: Val, w: Val, op: ArithOp)
    requires Eval(m, l, s) == Some(v) && Eval(m, r, s) == Some(w)
    ensures forall x, y :: v == Num(x) && w == Num(y) ==> Eval(m, ArithE(op, l, r), s) == Some(Num(m.num(op, x, y)))
    ensures !v.Num? || !w.Num? ==> Eval(m, ArithE(op, l, r), s) == m.metaArith(op, v, w)
    ensures forall x :: v == Num(x) ==> Eval(m, UnaryE(Unm, l), s) == Some(Num(m.neg(x)))
    ensures !v.Num? ==> Eval(m, UnaryE(Unm, l), s) == m.metaNeg(v)
    ensures Eval(m, UnaryE(Len, l), s) == m.len(v)
    ensures Eval(m, UnaryE(Not, l), s) == Some(Bool(v == Nil || v == Bool(false)))
  {
  }

  /** `and` gives its first operand if that is nil or false and the second one else, `or` the other
      way round; the operand that is not needed is not evaluated. */
  lemma LogicMeaning(m: Semantics, l: Expr, r: Expr, s: Regs, v: Val)
    requires Eval(m, l, s) == Some(v)
    ensures v == Nil || v == Bool(false) ==> Eval(m, And(l, r), s) == Some(v) && Eval(m, Or(l, r), s) == Eval(m, r, s)
    ensures v != Nil && v != Bool(false) ==> Eval(m, And(l, r), s) == Eval(m, r, s) && Eval(m, Or(l, r), s) == Some(v)
  {
  }

  /** The leaves of an expression; and an operator fails where an operand that it needs does. */
  lemma LeafMeaning(m: Semantics, l: Expr, r: Expr, s: Regs, i: nat, v: Val)
    ensures Eval(m, Const(v), s) == Some(v) && Eval(m, Local(i), s) == Some(if i in s then s[i] else Nil)
    ensures Eval(m, l, s) == None ==> Eval(m, And(l, r), s) == None && Eval(m, Or(l, r), s) == None && forall op :: Eval(m, UnaryE(op, l), s) == None
    ensures Eval(m, l, s) == None || Eval(m, r, s) == None ==>
      (forall op :: Eval(m, ArithE(op, l, r), s) == None) && forall op :: Eval(m, RelE(op, l, r), s) == None
  {
  }

  /** expkind, with the payload of expdesc. `Passed` is not in the source: it describes code after
      luaK_goiftrue (or goiffalse), which goes on only for true (or false) values. */
  datatype Kind =
    | VNil | VTrue | VFalse
    | VK(info: nat)
    | VKNum(nval: int)
    | VLocal(reg: nat)
    | VJmp(pc: nat)
    | VReloc(pc: nat)
    | VNonReloc(reg: nat)
    | Passed(b: bool)

  /** Where the part of the code ends that runs before the value is fetched: the last instruction
      of a relocatable expression has no target yet, a comparison has not been used yet. */
  function End(kind: Kind, len: nat): nat {
    match kind
    case VReloc(pc) => if pc < len then pc else len
    case VJmp(pc) => if 0 < pc < len then pc - 1 else len
    case _ => len
  }

  /** The value of a comparison whose jump is taken when it is true. */
  function TestValue(m: Semantics, k: seq<Val>, i: Instr, s: Regs): Option<Val> {
    if i.Compare? then Truth(m.cmp(i.cop, GetRK(k, s, i.rb), GetRK(k, s, i.rc)), i.cond) else None
  }

  /** The value that is available at the end of the code. */
  function Fetch(c: Code, kind: Kind, s: Regs): Option<Val> {
    match kind
    case VNil => Some(Nil)
    case VTrue => Some(Bool(true))
    case VFalse => Some(Bool(false))
    case VK(i) => Some(GetRK(c.k, s, K(i)))
    case VKNum(n) => Some(Num(n))
    case VLocal(r) => Some(Get(s, r))
    case VNonReloc(r) => Some(Get(s, r))
    case VReloc(pc) => if pc < |c.at| then ValueOf(c.m, c.k, c.at[pc], s) else None
    case VJmp(pc) => if 0 < pc < |c.at| then TestValue(c.m, c.k, c.at[pc-1], s) else None
    case Passed(_) => None
  }

  /** The value that leaves through the jump at j: that of the tested register if a TESTSET
      controls the jump, else a boolean. */
  function ExitValue(c: Code, j: nat, s: Regs, b: bool): Val {
    if YieldsValue(c.at, j) then Get(s, c.at[j-1].b) else Bool(b)
  }

  ghost predicate Agree(s: Regs, t: Regs, base: nat) {
    forall r :: 0 <= r < base ==> Get(t, r) == Get(s, r)
  }

  /** One way a run may end, compared with the value v the expression should have: with the value
      at hand, through the true list, through the false list, or with a runtime error. */
  ghost predicate Good(o: Outcome, c: Code, kind: Kind, T: set<nat>, F: set<nat>, base: nat, s: Regs, v: Option<Val>) {
    match o
    case Fall(t) =>
      Agree(s, t, base) && (if kind.Passed? then v.Some? && Falsy(v.value) == !kind.b else Fetch(c, kind, t) == v)
    case Exit(j, t) =>
      Agree(s, t, base) && v.Some? &&
      (if j in T then !Falsy(v.value) && ExitValue(c, j, t, true) == v.value
       else j in F && Falsy(v.value) && ExitValue(c, j, t, false) == v.value)
    case Fail => v.None?
    case Stuck => false
  }

  /** The code from p0 on, with the pending jumps T and F, computes a; registers below base stay. */
  ghost predicate Denotes(m: Semantics, k: seq<Val>, at: seq<Instr>, kind: Kind, T: set<nat>, F: set<nat>, p0: nat, base: nat, a: Expr) {
    && p0 <= End(kind, |at|) && (p0 > 0 ==> p0 <= |at| && !IsTest(at[p0-1])) && T !! F
    && (forall q :: p0 <= q < |at| ==> KOk(at[q], |k|))
    && (forall q :: (q in T || q in F) && p0 <= q < |at| ==> at[q].Jmp?)
    && forall s: Regs ::
         Good(Exec(Code(m, k, at, T + F), p0, End(kind, |at|), s), Code(m, k, at, T + F), kind, T, F, base, s, Eval(m, a, s))
  }

  lemma EvalAgree(m: Semantics, a: Expr, s: Regs, t: Regs, base: nat)
    requires Agree(s, t, base) && LocalsBelow(a, base)
    ensures Eval(m, a, t) == Eval(m, a, s)
  {
  }

  predicate LocalsBelow(a: Expr, n: nat) {
    match a
    case Const(_) => true
    case Local(i) => i < n
    case UnaryE(_, e) => LocalsBelow(e, n)
    case ArithE(_, l, r) => LocalsBelow(l, n) && LocalsBelow(r, n)
    case RelE(_, l, r) => LocalsBelow(l, n) && LocalsBelow(r, n)
    case And(l, r) => LocalsBelow(l, n) && LocalsBelow(r, n)
    case Or(l, r) => LocalsBelow(l, n) && LocalsBelow(r, n)
  }

  lemma GoodAt(m: Semantics, k: seq<Val>, at: seq<Instr>, kind: Kind, T: set<nat>, F: set<nat>, p0: nat, base: nat, a: Expr, s: Regs)
    requires Denotes(m, k, at, kind, T, F, p0, base, a)
    ensures p0 <= End(kind, |at|) <= |at|
    ensures Good(Exec(Code(m, k, at, T + F), p0, End(kind, |at|), s), Code(m, k, at, T + F), kind, T, F, base, s, Eval(m, a, s))
  {
    hide Good, Exec, KOk;
  }

  // ---- Loading the value -------------------------------------------------------------------

  /** A leaf: no code. */
  lemma Leaf(m: Semantics, k: seq<Val>, at: seq<Instr>, kind: Kind, base: nat, a: Expr)
    requires kind.VNil? || kind.VTrue? || kind.VFalse? || kind.VK? || kind.VKNum? || kind.VLocal? || kind.VNonReloc?
    requires forall s: Regs :: Fetch(Code(m, k, at, {}), kind, s) == Eval(m, a, s)
    requires |at| > 0 ==> !IsTest(at[|at|-1])
    ensures Denotes(m, k, at, kind, {}, {}, |at|, base, a)
  {
    forall s: Regs ensures Good(Exec(Code(m, k, at, {}+{}), |at|, |at|, s), Code(m, k, at, {}+{}), kind, {}, {}, base, s, Eval(m, a, s)) {
      assert Exec(Code(m, k, at, {}+{}), |at|, |at|, s) == Fall(s);
      assert Code(m, k, at, {}+{}) == Code(m, k, at, {});
    }
  }

  /** The instruction i, which sets register a, computes the value that kind stands for. */
  ghost predicate Loads(m: Semantics, k: seq<Val>, at: seq<Instr>, kind: Kind, k': seq<Val>, i: Instr) {
    && IsLoad(i) && !kind.Passed? && KOk(i, |k'|) && k <= k'
    && forall s: Regs :: Fetch(Code(m, k, at, {}), kind, s) == (if i.LoadNil? then Some(Nil) else ValueOf(m, k', i, s))
  }

  lemma Load(m: Semantics, k: seq<Val>, at: seq<Instr>, kind: Kind, T: set<nat>, F: set<nat>, p0: nat, base: nat, a: Expr,
             k': seq<Val>, i: Instr)
    requires Denotes(m, k, at, kind, T, F, p0, base, a) && Loads(m, k, at, kind, k', i) && i.a >= base
    requires forall q :: q in T || q in F ==> q < End(kind, |at|)
    ensures Denotes(m, k', at[..End(kind, |at|)] + [i], VNonReloc(i.a), T, F, p0, base, a)
  {
    hide Exec, Good, Fetch, ValueOf;
    var e := End(kind, |at|);
    var at' := at[..e] + [i];
    var c, d := Code(m, k, at, T + F), Code(m, k', at', T + F);
    LoadSame(m, k, at, at', T + F, p0, e, k');
    hide Same;
    forall s: Regs ensures Good(Exec(d, p0, e + 1, s), d, VNonReloc(i.a), T, F, base, s, Eval(m, a, s)) {
      LoadRun(c, d, kind, T, F, p0, e, base, i, s, Eval(m, a, s));
    }
    assert forall q :: p0 <= q < |at'| ==> KOk(at'[q], |k'|);
  }

  /** More code and more constants. */
  lemma LoadSame(m: Semantics, k: seq<Val>, at: seq<Instr>, at': seq<Instr>, open: set<nat>, p0: nat, e: nat, k': seq<Val>)
    requires p0 <= e <= |at| && e <= |at'| && at'[..e] == at[..e] && k <= k'
    requires forall q :: p0 <= q < e ==> KOk(at[q], |k|)
    requires p0 > 0 ==> !IsTest(at[p0-1])
    ensures Same(Code(m, k, at, open), Code(m, k', at', open), p0, e)
    ensures p0 > 0 ==> !IsTest(at'[p0-1])
  {
    hide KOk;
    forall q | 0 <= q < e ensures at'[q] == at[q] {
      assert at'[..e][q] == at[..e][q];
    }
  }

  predicate IsLoad(i: Instr) {
    i.Move? || i.LoadK? || (i.LoadBool? && !i.skip) || (i.LoadNil? && i.last == i.a) || i.ArithI? || i.UnaryI?
  }

  lemma LoadStep(d: Code, e: nat, i: Instr, t: Regs)
    requires e + 1 == |d.at| && d.at[e] == i && IsLoad(i)
    ensures var v := if i.LoadNil? then Some(Nil) else ValueOf(d.m, d.k, i, t);
      Exec(d, e, e + 1, t) == if v.None? then Fail else Fall(t[i.a := v.value])
  {
    hide Arith, Unary, GetRK;
    var r := StepAt(d, e, e + 1, t);
    if i.LoadNil? {
      assert SetNils(t, i.a, i.a) == SetNils(t[i.a := Nil], i.a + 1, i.a);
    }
    assert r.Next? ==> r.pc == e + 1 && Exec(d, e + 1, e + 1, r.s) == Fall(r.s);
  }

  lemma LoadRun(c: Code, d: Code, kind: Kind, T: set<nat>, F: set<nat>, p0: nat, e: nat, base: nat, i: Instr, s: Regs, v: Option<Val>)
    requires Same(c, d, p0, e) && e + 1 == |d.at| && d.at == c.at[..e] + [i] && IsLoad(i) && i.a >= base
    requires c.open == T + F == d.open && p0 <= e <= |c.at| && c.m == d.m
    requires Good(Exec(c, p0, e, s), c, kind, T, F, base, s, v)
    requires Loads(c.m, c.k, c.at, kind, d.k, i)
    ensures Good(Exec(d, p0, e + 1, s), d, VNonReloc(i.a), T, F, base, s, v)
  {
    hide Exec, StepAt, Same, ValueOf, KOk;
    ExecSame(c, d, p0, p0, e, s);
    ExecSplit(d, p0, e, e + 1, s);
    ExitIsOpen(c, p0, e, s);
    var o := Exec(c, p0, e, s);
    match o
    case Fall(t) =>
      FetchOpen(c, kind, t);
      LoadStep(d, e, i, t);
    case Exit(j, t) =>
      assert YieldsValue(d.at, j) == YieldsValue(c.at, j);
    case _ =>
  }

  /** Fetching does not depend on the open jumps. */
  lemma FetchOpen(c: Code, kind: Kind, s: Regs)
    ensures Fetch(c, kind, s) == Fetch(Code(c.m, c.k, c.at, {}), kind, s)
  {
  }

  // ---- Sequencing --------------------------------------------------------------------------

  lemma AgreeTrans(s: Regs, t: Regs, u: Regs, base: nat, base': nat)
    requires Agree(s, t, base) && Agree(t, u, base') && base <= base'
    ensures Agree(s, u, base)
  {
  }

  /** Code for l up to p1, then code from p1 on: one run. */
  lemma Onward(c: Code, d: Code, p0: nat, p1: nat, end: nat, s: Regs)
    requires Same(c, d, p0, p1) && p1 <= end <= |d.at| && !Exec(c, p0, p1, s).Stuck?
    ensures Exec(d, p0, end, s) == (match Exec(c, p0, p1, s) case Fall(t) => Exec(d, p1, end, t) case o => o)
  {
    hide Exec, Same, StepAt;
    assert p0 <= p1 by { SameOrder(c, d, p0, p1); }
    ExecSame(c, d, p0, p0, p1, s);
    ExecSplit(d, p0, p1, end, s);
  }

  lemma SameOrder(c: Code, d: Code, p0: nat, p1: nat)
    requires Same(c, d, p0, p1)
    ensures p0 <= p1 <= |c.at| && p1 <= |d.at| && c.m == d.m
  {
  }

  /** Jumps opened before p0 do not matter from p0 on. */
  lemma MoreOpen(m: Semantics, k: seq<Val>, at: seq<Instr>, kind: Kind, T: set<nat>, F: set<nat>, more: set<nat>, p0: nat, base: nat, a: Expr, s: Regs)
    requires Denotes(m, k, at, kind, T, F, p0, base, a)
    requires forall q :: q in more ==> q < p0
    ensures Exec(Code(m, k, at, T + F + more), p0, End(kind, |at|), s) == Exec(Code(m, k, at, T + F), p0, End(kind, |at|), s)
    ensures Good(Exec(Code(m, k, at, T + F), p0, End(kind, |at|), s), Code(m, k, at, T + F), kind, T, F, base, s, Eval(m, a, s))
  {
    hide Exec, Fetch, Eval, KOk;
    var c, d := Code(m, k, at, T + F), Code(m, k, at, T + F + more);
    assert Same(c, d, p0, End(kind, |at|));
    hide Same, Denotes;
    ExecSame(c, d, p0, p0, End(kind, |at|), s);
  }

  /** The code of the left operand of `and` (b) or `or` (!b), then that of the right one: the jumps
      L of the left operand leave with its value. */
  lemma Branch(m: Semantics, b: bool, k1: seq<Val>, at1: seq<Instr>, L: set<nat>, p0: nat, base: nat, l: Expr,
               k2: seq<Val>, at2: seq<Instr>, kind: Kind, T: set<nat>, F: set<nat>, r: Expr)
    requires Denotes(m, k1, at1, Passed(b), if b then {} else L, if b then L else {}, p0, base, l)
    requires Denotes(m, k2, at2, kind, T, F, |at1|, base, r)
    requires LocalsBelow(r, base) && k1 <= k2
    requires forall q :: q in L ==> p0 <= q < |at1|
    requires forall q :: q in T || q in F ==> |at1| <= q
    requires Same(Code(m, k1, at1, L), Code(m, k2, at2, T + F + L), p0, |at1|)
    requires |at1| <= |at2| && forall j :: j in L ==> YieldsValue(at1, j) == YieldsValue(at2, j) && (YieldsValue(at1, j) ==> at2[j-1].b == at1[j-1].b)
    requires forall q :: p0 <= q < |at1| ==> KOk(at2[q], |k2|)
    requires p0 > 0 ==> p0 <= |at2| && !IsTest(at2[p0-1])
    ensures Denotes(m, k2, at2, kind, if b then T else T + L, if b then F + L else F, p0, base, if b then And(l, r) else Or(l, r))
  {
    hide Exec, Same, Fetch, KOk, StepAt;
    var T', F' := if b then T else T + L, if b then F + L else F;
    var a := if b then And(l, r) else Or(l, r);
    var d := Code(m, k2, at2, T' + F');
    assert T' + F' == T + F + L;
    forall s: Regs ensures Good(Exec(d, p0, End(kind, |at2|), s), d, kind, T', F', base, s, Eval(m, a, s)) {
      BranchRun(m, b, k1, at1, L, p0, base, l, k2, at2, kind, T, F, r, s);
    }
    forall q | q in L ensures at2[q].Jmp? { LJumps(Code(m, k1, at1, L), Code(m, k2, at2, T + F + L), p0, |at1|, q); }
  }

  lemma LJumps(c: Code, d: Code, p0: nat, end: nat, q: nat)
    requires Same(c, d, p0, end) && p0 <= q < end && q in c.open && c.at[q].Jmp?
    ensures d.at[q].Jmp?
  {
    assert CellOk(c, d, {}, end, None, To(end), q);
  }

  lemma BranchRun(m: Semantics, b: bool, k1: seq<Val>, at1: seq<Instr>, L: set<nat>, p0: nat, base: nat, l: Expr,
                  k2: seq<Val>, at2: seq<Instr>, kind: Kind, T: set<nat>, F: set<nat>, r: Expr, s: Regs)
    requires Denotes(m, k1, at1, Passed(b), if b then {} else L, if b then L else {}, p0, base, l)
    requires Denotes(m, k2, at2, kind, T, F, |at1|, base, r)
    requires LocalsBelow(r, base) && forall q :: q in L ==> q < |at1|
    requires forall q :: q in T || q in F ==> |at1| <= q
    requires Same(Code(m, k1, at1, L), Code(m, k2, at2, T + F + L), p0, |at1|)
    requires |at1| <= |at2| && forall j :: j in L ==> YieldsValue(at1, j) == YieldsValue(at2, j) && (YieldsValue(at1, j) ==> at2[j-1].b == at1[j-1].b)
    ensures var T', F' := if b then T else T + L, if b then F + L else F;
      var d := Code(m, k2, at2, T + F + L);
      Good(Exec(d, p0, End(kind, |at2|), s), d, kind, T', F', base, s, Eval(m, if b then And(l, r) else Or(l, r), s))
  {
    hide Exec, Same, StepAt, KOk, Fetch, Good;
    var c, d := Code(m, k1, at1, L), Code(m, k2, at2, T + F + L);
    assert (if b then {} else L) + (if b then L else {}) == L;
    var o := Exec(c, p0, |at1|, s);
    assert Good(o, c, Passed(b), if b then {} else L, if b then L else {}, base, s, Eval(m, l, s));
    NotStuck(o, c, Passed(b), if b then {} else L, if b then L else {}, base, s, Eval(m, l, s));
    Onward(c, d, p0, |at1|, End(kind, |at2|), s);
    if o.Fall? {
      MoreOpen(m, k2, at2, kind, T, F, L, |at1|, base, r, o.s);
      EvalAgree(m, r, s, o.s, base);
      BranchRight(m, b, L, k2, at2, kind, T, F, base, s, o.s, Exec(d, |at1|, End(kind, |at2|), o.s), Eval(m, r, s));
    } else {
      BranchLeft(c, d, b, L, kind, T, F, base, s, o, Eval(m, l, s));
    }
  }

  /** What a run that reaches its end tells, and that it is never stuck. */
  lemma NotStuck(o: Outcome, c: Code, kind: Kind, T: set<nat>, F: set<nat>, base: nat, s: Regs, v: Option<Val>)
    requires Good(o, c, kind, T, F, base, s, v)
    ensures !o.Stuck? && (o.Fall? ==> Agree(s, o.s, base))
    ensures o.Fall? && kind.Passed? ==> v.Some? && Falsy(v.value) == !kind.b
  {
  }

  lemma BranchLeft(c: Code, d: Code, b: bool, L: set<nat>, kind: Kind, T: set<nat>, F: set<nat>, base: nat, s: Regs, o: Outcome, v: Option<Val>)
    requires Good(o, c, Passed(b), if b then {} else L, if b then L else {}, base, s, v) && !o.Fall?
    requires forall q :: q in T || q in F ==> |c.at| <= q
    requires forall q :: q in L ==> q < |c.at|
    requires |c.at| <= |d.at| && forall j :: j in L ==> YieldsValue(c.at, j) == YieldsValue(d.at, j) && (YieldsValue(c.at, j) ==> d.at[j-1].b == c.at[j-1].b)
    ensures Good(o, d, kind, if b then T else T + L, if b then F + L else F, base, s, v)
    ensures v.Some? ==> Falsy(v.value) == b
  {
  }

  lemma BranchRight(m: Semantics, b: bool, L: set<nat>, k2: seq<Val>, at2: seq<Instr>, kind: Kind, T: set<nat>, F: set<nat>,
                    base: nat, s: Regs, t: Regs, o: Outcome, v: Option<Val>)
    requires Good(o, Code(m, k2, at2, T + F), kind, T, F, base, t, v) && Agree(s, t, base) && T !! F
    requires forall q :: q in T || q in F ==> q !in L
    ensures Good(o, Code(m, k2, at2, T + F + L), kind, if b then T else T + L, if b then F + L else F, base, s, v)
  {
    if o.Fall? || o.Exit? { AgreeTrans(s, t, o.s, base, base); }
    hide Agree;
  }

  // ---- Two operands ------------------------------------------------------------------------

  /** An operand that waits: in a register, in the constant table, or still a numeral. */
  predicate Waits(x: Kind) { x.VNonReloc? || x.VK? || x.VKNum? }

  /** The operand survives code that leaves registers below base alone. */
  predicate WaitsBelow(x: Kind, base: nat, nk: nat) {
    Waits(x) && (x.VNonReloc? ==> x.reg < base) && (x.VK? ==> x.info < nk)
  }

  function Operand(k: seq<Val>, x: Kind, s: Regs): Val
    requires Waits(x)
  {
    match x
    case VNonReloc(r) => Get(s, r)
    case VK(i) => GetRK(k, s, K(i))
    case VKNum(n) => Num(n)
  }

  ghost predicate Good2(o: Outcome, k: seq<Val>, x: Kind, y: Kind, base: nat, s: Regs, v: Option<Val>, w: Option<Val>)
    requires Waits(x) && Waits(y)
  {
    match o
    case Fall(t) => Agree(s, t, base) && v == Some(Operand(k, x, t)) && w == Some(Operand(k, y, t))
    case Fail => v.None? || w.None?
    case _ => false
  }

  /** The code from p0 on computes l and r and leaves them in x and y. */
  ghost predicate Denotes2(m: Semantics, k: seq<Val>, at: seq<Instr>, x: Kind, y: Kind, p0: nat, base: nat, l: Expr, r: Expr) {
    && p0 <= |at| && (p0 > 0 ==> !IsTest(at[p0-1])) && Waits(x) && Waits(y)
    && (forall q :: p0 <= q < |at| ==> KOk(at[q], |k|))
    && forall s: Regs :: Good2(Exec(Code(m, k, at, {}), p0, |at|, s), k, x, y, base, s, Eval(m, l, s), Eval(m, r, s))
  }

  lemma OneOperand(m: Semantics, k: seq<Val>, at: seq<Instr>, x: Kind, p0: nat, base: nat, a: Expr, s: Regs)
    requires Denotes(m, k, at, x, {}, {}, p0, base, a) && Waits(x)
    ensures var o := Exec(Code(m, k, at, {}), p0, |at|, s);
      if o.Fall? then Agree(s, o.s, base) && Eval(m, a, s) == Some(Operand(k, x, o.s)) else o.Fail? && Eval(m, a, s).None?
  {
    hide Exec, KOk, Agree;
    var none: set<nat> := {};
    assert none + none == none;
    var o := Exec(Code(m, k, at, {} + {}), p0, |at|, s);
    assert Good(o, Code(m, k, at, {} + {}), x, {}, {}, base, s, Eval(m, a, s));
  }

  /** What Denotes says of the code itself. */
  lemma CodeOk(m: Semantics, k: seq<Val>, at: seq<Instr>, kind: Kind, T: set<nat>, F: set<nat>, p0: nat, base: nat, a: Expr)
    requires Denotes(m, k, at, kind, T, F, p0, base, a)
    ensures p0 <= End(kind, |at|) <= |at| && (p0 > 0 ==> !IsTest(at[p0-1]))
    ensures forall q :: p0 <= q < |at| ==> KOk(at[q], |k|)
  {
    hide Good, Exec;
  }

  lemma PairUp(m: Semantics, k1: seq<Val>, at1: seq<Instr>, x: Kind, p0: nat, base: nat, l: Expr,
               k2: seq<Val>, at2: seq<Instr>, y: Kind, base1: nat, r: Expr)
    requires Denotes(m, k1, at1, x, {}, {}, p0, base, l) && WaitsBelow(x, base1, |k1|)
    requires Denotes(m, k2, at2, y, {}, {}, |at1|, base1, r) && Waits(y)
    requires base <= base1 && LocalsBelow(r, base) && k1 <= k2 && |at1| <= |at2| && at2[..|at1|] == at1
    ensures Denotes2(m, k2, at2, x, y, p0, base, l, r)
  {
    hide Exec, Same, Denotes, KOk, Good2, Agree, Eval, LocalsBelow, Operand;
    PairCode(m, k1, at1, x, p0, base, l, k2, at2, y, base1, r);
    forall s: Regs ensures Good2(Exec(Code(m, k2, at2, {}), p0, |at2|, s), k2, x, y, base, s, Eval(m, l, s), Eval(m, r, s)) {
      PairUpRun(m, k1, at1, x, p0, base, l, k2, at2, y, base1, r, s);
    }
  }

  lemma PairCode(m: Semantics, k1: seq<Val>, at1: seq<Instr>, x: Kind, p0: nat, base: nat, l: Expr,
                 k2: seq<Val>, at2: seq<Instr>, y: Kind, base1: nat, r: Expr)
    requires Denotes(m, k1, at1, x, {}, {}, p0, base, l) && Denotes(m, k2, at2, y, {}, {}, |at1|, base1, r)
    requires k1 <= k2 && |at1| <= |at2| && at2[..|at1|] == at1
    ensures p0 <= |at1| && (p0 > 0 ==> !IsTest(at2[p0-1])) && forall q :: p0 <= q < |at2| ==> KOk(at2[q], |k2|)
  {
    hide Denotes, KOk;
    CodeOk(m, k1, at1, x, {}, {}, p0, base, l);
    CodeOk(m, k2, at2, y, {}, {}, |at1|, base1, r);
    KOkMore(at1, at2, p0, k1, k2);
    assert p0 > 0 ==> at2[..|at1|][p0-1] == at2[p0-1];
  }

  lemma PairUpRun(m: Semantics, k1: seq<Val>, at1: seq<Instr>, x: Kind, p0: nat, base: nat, l: Expr,
                  k2: seq<Val>, at2: seq<Instr>, y: Kind, base1: nat, r: Expr, s: Regs)
    requires Denotes(m, k1, at1, x, {}, {}, p0, base, l) && WaitsBelow(x, base1, |k1|)
    requires Denotes(m, k2, at2, y, {}, {}, |at1|, base1, r) && Waits(x) && Waits(y)
    requires base <= base1 && LocalsBelow(r, base) && k1 <= k2 && |at1| <= |at2| && at2[..|at1|] == at1 && p0 <= |at1|
    ensures Good2(Exec(Code(m, k2, at2, {}), p0, |at2|, s), k2, x, y, base, s, Eval(m, l, s), Eval(m, r, s))
  {
    hide Exec, Denotes, KOk, Agree, Eval, LocalsBelow, WaitsBelow, Good2, Waits, Operand;
    OneOperand(m, k1, at1, x, p0, base, l, s);
    OnwardCode(m, k1, at1, x, p0, base, l, k2, at2, s);
    var o := Exec(Code(m, k1, at1, {}), p0, |at1|, s);
    if o.Fall? {
      OneOperand(m, k2, at2, y, |at1|, base1, r, o.s);
      EvalAgree(m, r, s, o.s, base);
      PairRun(k1, k2, x, y, base, base1, s, o.s, Exec(Code(m, k2, at2, {}), |at1|, |at2|, o.s), Eval(m, l, s), Eval(m, r, s));
    } else {
      PairFail(k2, x, y, base, s, Eval(m, l, s), Eval(m, r, s));
    }
  }

  lemma PairFail(k: seq<Val>, x: Kind, y: Kind, base: nat, s: Regs, v: Option<Val>, w: Option<Val>)
    requires Waits(x) && Waits(y) && (v.None? || w.None?)
    ensures Good2(Fail, k, x, y, base, s, v, w)
  {
  }

  /** Code of a single operand, followed by more code. */
  lemma OnwardCode(m: Semantics, k1: seq<Val>, at1: seq<Instr>, x: Kind, p0: nat, base: nat, l: Expr,
                   k2: seq<Val>, at2: seq<Instr>, s: Regs)
    requires Denotes(m, k1, at1, x, {}, {}, p0, base, l) && Waits(x)
    requires k1 <= k2 && |at1| <= |at2| && at2[..|at1|] == at1 && p0 <= |at1|
    ensures Exec(Code(m, k2, at2, {}), p0, |at2|, s) ==
      (match Exec(Code(m, k1, at1, {}), p0, |at1|, s) case Fall(t) => Exec(Code(m, k2, at2, {}), |at1|, |at2|, t) case o => o)
  {
    hide Exec, Same, Denotes, KOk;
    CodeOk(m, k1, at1, x, {}, {}, p0, base, l);
    LoadSame(m, k1, at1, at2, {}, p0, |at1|, k2);
    OneOperand(m, k1, at1, x, p0, base, l, s);
    Onward(Code(m, k1, at1, {}), Code(m, k2, at2, {}), p0, |at1|, |at2|, s);
  }

  lemma KOkMore(at1: seq<Instr>, at2: seq<Instr>, p0: nat, k1: seq<Val>, k2: seq<Val>)
    requires |at1| <= |at2| && at2[..|at1|] == at1 && |k1| <= |k2|
    requires forall q :: p0 <= q < |at1| ==> KOk(at1[q], |k1|)
    requires forall q :: |at1| <= q < |at2| ==> KOk(at2[q], |k2|)
    ensures forall q :: p0 <= q < |at2| ==> KOk(at2[q], |k2|)
  {
    forall q | p0 <= q < |at2| ensures KOk(at2[q], |k2|) {
      if q < |at1| { assert at2[..|at1|][q] == at2[q]; }
    }
  }

  lemma PairRun(k1: seq<Val>, k2: seq<Val>, x: Kind, y: Kind, base: nat, base1: nat, s: Regs, t: Regs, o: Outcome, v: Option<Val>, w: Option<Val>)
    requires Waits(x) && Waits(y) && WaitsBelow(x, base1, |k1|) && k1 <= k2 && base <= base1
    requires Agree(s, t, base) && v == Some(Operand(k1, x, t))
    requires if o.Fall? then Agree(t, o.s, base1) && w == Some(Operand(k2, y, o.s)) else o.Fail? && w.None?
    ensures Good2(o, k2, x, y, base, s, v, w)
  {
    if o.Fall? { AgreeTrans(s, t, o.s, base, base1); }
  }

  /** A waiting operand, seen as an expression of its own. */
  function Held(k: seq<Val>, x: Kind): Expr
    requires Waits(x)
  {
    match x
    case VNonReloc(r) => Local(r)
    case VK(i) => Const(if i < |k| then k[i] else Nil)
    case VKNum(n) => Const(Num(n))
  }

  lemma HeldValue(m: Semantics, k: seq<Val>, x: Kind, s: Regs)
    requires Waits(x)
    ensures Eval(m, Held(k, x), s) == Some(Operand(k, x, s))
  {
  }

  /** A numeral on the left waits for the right operand before it gets a register or a constant. */
  lemma PairMore(m: Semantics, k1: seq<Val>, at1: seq<Instr>, x: Kind, y: Kind, p0: nat, base: nat, l: Expr, r: Expr,
                 k2: seq<Val>, at2: seq<Instr>, x': Kind, base1: nat)
    requires Denotes2(m, k1, at1, x, y, p0, base, l, r) && WaitsBelow(y, base1, |k1|)
    requires Denotes(m, k2, at2, x', {}, {}, |at1|, base1, Held(k1, x)) && Waits(x')
    requires base <= base1 && k1 <= k2 && |at1| <= |at2| && at2[..|at1|] == at1
    ensures Denotes2(m, k2, at2, x', y, p0, base, l, r)
  {
    hide Exec, Same, KOk, Denotes, Agree, Good2, Held;
    CodeOk(m, k2, at2, x', {}, {}, |at1|, base1, Held(k1, x));
    LoadSame(m, k1, at1, at2, {}, p0, |at1|, k2);
    forall s: Regs ensures Good2(Exec(Code(m, k2, at2, {}), p0, |at2|, s), k2, x', y, base, s, Eval(m, l, s), Eval(m, r, s)) {
      assert Good2(Exec(Code(m, k1, at1, {}), p0, |at1|, s), k1, x, y, base, s, Eval(m, l, s), Eval(m, r, s));
      PairMoreRun(m, k1, at1, x, y, p0, base, k2, at2, x', base1, s, Eval(m, l, s), Eval(m, r, s));
    }
    KOkMore(at1, at2, p0, k1, k2);
  }

  lemma PairMoreRun(m: Semantics, k1: seq<Val>, at1: seq<Instr>, x: Kind, y: Kind, p0: nat, base: nat,
                    k2: seq<Val>, at2: seq<Instr>, x': Kind, base1: nat, s: Regs, v: Option<Val>, w: Option<Val>)
    requires Waits(x) && Waits(x') && WaitsBelow(y, base1, |k1|) && p0 <= |at1| <= |at2| && k1 <= k2 && base <= base1
    requires Good2(Exec(Code(m, k1, at1, {}), p0, |at1|, s), k1, x, y, base, s, v, w)
    requires Denotes(m, k2, at2, x', {}, {}, |at1|, base1, Held(k1, x))
    requires Same(Code(m, k1, at1, {}), Code(m, k2, at2, {}), p0, |at1|)
    ensures Good2(Exec(Code(m, k2, at2, {}), p0, |at2|, s), k2, x', y, base, s, v, w)
  {
    hide Exec, Same, KOk, Denotes, Agree, Operand, Held, Eval;
    var c, d := Code(m, k1, at1, {}), Code(m, k2, at2, {});
    var o := Exec(c, p0, |at1|, s);
    Onward(c, d, p0, |at1|, |at2|, s);
    if o.Fall? {
      HeldValue(m, k1, x, o.s);
      OneOperand(m, k2, at2, x', |at1|, base1, Held(k1, x), o.s);
      PairRun(k1, k2, y, x', base, base1, s, o.s, Exec(d, |at1|, |at2|, o.s), w, v);
    }
  }

  /** The RK operand for a waiting value that is not a numeral. */
  function RKOf(x: Kind): RK
    requires x.VNonReloc? || x.VK?
  {
    if x.VK? then K(x.info) else R(x.reg)
  }

  /** Instructions that use both operands, whose value is fetched later. */
  lemma EmitPair(m: Semantics, k: seq<Val>, at: seq<Instr>, x: Kind, y: Kind, p0: nat, base: nat, l: Expr, r: Expr,
                 tail: seq<Instr>, kind: Kind, a: Expr)
    requires Denotes2(m, k, at, x, y, p0, base, l, r) && (x.VNonReloc? || x.VK?) && (y.VNonReloc? || y.VK?)
    requires tail != [] && (forall i :: i in tail ==> KOk(i, |k|)) && End(kind, |at + tail|) == |at| && !kind.Passed?
    requires forall s: Regs, t: Regs :: Eval(m, l, s) == Some(Operand(k, x, t)) && Eval(m, r, s) == Some(Operand(k, y, t))
               ==> Fetch(Code(m, k, at + tail, {}), kind, t) == Eval(m, a, s)
    requires forall s: Regs :: Eval(m, l, s).None? || Eval(m, r, s).None? ==> Eval(m, a, s).None?
    ensures Denotes(m, k, at + tail, kind, {}, {}, p0, base, a)
  {
    hide Exec, Same, KOk, Eval, Fetch, Agree;
    var at' := at + tail;
    var c, d := Code(m, k, at, {}), Code(m, k, at', {} + {});
    var none: set<nat> := {};
    assert none + none == none;
    assert at'[..|at|] == at;
    LoadSame(m, k, at, at', {}, p0, |at|, k);
    forall s: Regs ensures Good(Exec(d, p0, |at|, s), d, kind, {}, {}, base, s, Eval(m, a, s)) {
      var o := Exec(c, p0, |at|, s);
      assert Good2(o, k, x, y, base, s, Eval(m, l, s), Eval(m, r, s));
      ExecSame(c, d, p0, p0, |at|, s);
      FetchOpen(d, kind, if o.Fall? then o.s else s);
    }
    assert forall q :: p0 <= q < |at'| ==> KOk(at'[q], |k|);
  }

  // ---- Testing the value -------------------------------------------------------------------

  /** Whether the test i takes its jump. */
  function Taken(m: Semantics, k: seq<Val>, i: Instr, s: Regs): Option<bool>
    requires IsTest(i)
  {
    match i
    case Test(a, c) => Some(Falsy(Get(s, a)) != c)
    case TestSet(_, b, c) => Some(Falsy(Get(s, b)) != c)
    case Compare(op, x, b, c) =>
      var r := m.cmp(op, GetRK(k, s, b), GetRK(k, s, c));
      if r.None? then None else Some(r.value == x)
  }

  /** i jumps for the values v that are true (false, if b), and its jump yields v. */
  ghost predicate TestsFor(m: Semantics, k: seq<Val>, i: Instr, b: bool, s: Regs, v: Option<Val>) {
    && IsTest(i) && (Taken(m, k, i, s).None? <==> v.None?)
    && (v.Some? ==>
          && Taken(m, k, i, s).value == (Falsy(v.value) == b)
          && (i.TestSet? ==> Get(s, i.b) == v.value)
          && (Taken(m, k, i, s).value && !i.TestSet? ==> v.value == Bool(!b))
          && (i.Compare? ==> v.value.Bool?))
  }

  /** luaK_goiftrue (b), luaK_goiffalse (!b): the code goes on for true (false) values only. After
      a comparison, what goes on is the value false itself. */
  lemma AddTest(m: Semantics, k: seq<Val>, at: seq<Instr>, kind: Kind, T: set<nat>, F: set<nat>, p0: nat, base: nat, a: Expr,
                i: Instr, link: int, b: bool, kind': Kind)
    requires Denotes(m, k, at, kind, T, F, p0, base, a) && !kind.Passed? && IsTest(i) && KOk(i, |k|)
    requires forall s: Regs :: TestsFor(m, k, i, b, s, Fetch(Code(m, k, at, {}), kind, s))
    requires forall q :: q in T || q in F ==> q < End(kind, |at|)
    requires kind' == Passed(b) || (kind' == VFalse && i.Compare? && !b)
    ensures var e := End(kind, |at|);
      Denotes(m, k, at[..e] + [i, Jmp(link)], kind', if b then T else T + {e + 1}, if b then F + {e + 1} else F, p0, base, a)
  {
    hide Exec, Good, Fetch, TestsFor, Same;
    var e := End(kind, |at|);
    var at' := at[..e] + [i, Jmp(link)];
    var T', F' := if b then T else T + {e + 1}, if b then F + {e + 1} else F;
    var c, d := Code(m, k, at, T + F), Code(m, k, at', T' + F');
    assert T' + F' == T + F + {e + 1};
    TestSame(m, k, at, at', T + F, T' + F', p0, e);
    forall s: Regs ensures Good(Exec(d, p0, e + 2, s), d, kind', T', F', base, s, Eval(m, a, s)) {
      TestRun(c, d, kind, T, F, p0, e, base, i, b, kind', s, Eval(m, a, s));
    }
    assert forall q :: p0 <= q < |at'| ==> KOk(at'[q], |k|);
  }

  lemma TestSame(m: Semantics, k: seq<Val>, at: seq<Instr>, at': seq<Instr>, open: set<nat>, open': set<nat>, p0: nat, e: nat)
    requires p0 <= e <= |at| && e <= |at'| && at'[..e] == at[..e]
    requires forall q :: p0 <= q < e ==> KOk(at[q], |k|)
    requires forall q :: p0 <= q < e ==> (q in open <==> q in open')
    requires p0 > 0 ==> !IsTest(at[p0-1])
    ensures Same(Code(m, k, at, open), Code(m, k, at', open'), p0, e)
    ensures p0 > 0 ==> !IsTest(at'[p0-1])
  {
    hide KOk;
    forall q | 0 <= q < e ensures at'[q] == at[q] {
      assert at'[..e][q] == at[..e][q];
    }
  }

  lemma TestStep(d: Code, e: nat, i: Instr, t: Regs)
    requires e + 2 == |d.at| && d.at[e] == i && d.at[e+1].Jmp? && IsTest(i) && e + 1 in d.open
    ensures Exec(d, e, e + 2, t) ==
      (var r := Taken(d.m, d.k, i, t); if r.None? then Fail else if r.value then Exit(e + 1, t) else Fall(t))
  {
    hide GetRK, Get;
    var r := StepAt(d, e, e + 2, t);
    assert Exec(d, e + 2, e + 2, t) == Fall(t);
  }

  lemma TestRun(c: Code, d: Code, kind: Kind, T: set<nat>, F: set<nat>, p0: nat, e: nat, base: nat, i: Instr, b: bool, kind': Kind,
                s: Regs, v: Option<Val>)
    requires Same(c, d, p0, e) && p0 <= e <= |c.at| && |d.at| == e + 2 && d.at == c.at[..e] + [i, d.at[e+1]] && d.at[e+1].Jmp? && IsTest(i)
    requires c.open == T + F && d.open == T + F + {e + 1} && c.m == d.m && c.k == d.k && T !! F
    requires Good(Exec(c, p0, e, s), c, kind, T, F, base, s, v) && !kind.Passed?
    requires forall t: Regs :: TestsFor(c.m, c.k, i, b, t, Fetch(Code(c.m, c.k, c.at, {}), kind, t))
    requires forall q :: q in T || q in F ==> q < e
    requires kind' == Passed(b) || (kind' == VFalse && i.Compare? && !b)
    ensures Good(Exec(d, p0, e + 2, s), d, kind', if b then T else T + {e + 1}, if b then F + {e + 1} else F, base, s, v)
  {
    hide Exec, StepAt, Same, Taken;
    Onward(c, d, p0, e, e + 2, s) by { NotStuck(Exec(c, p0, e, s), c, kind, T, F, base, s, v); }
    ExitIsOpen(c, p0, e, s);
    var o := Exec(c, p0, e, s);
    match o
    case Fall(t) =>
      FetchOpen(c, kind, t);
      hide Fetch;
      TestStep(d, e, i, t);
    case Exit(j, t) =>
      assert YieldsValue(d.at, j) == YieldsValue(c.at, j);
    case _ =>
  }

  /** luaK_patchtohere on the list that goes on: its jumps arrive with the value that passes. */
  lemma CloseHere(m: Semantics, k: seq<Val>, at: seq<Instr>, b: bool, L: set<nat>, M: set<nat>, p0: nat, base: nat, a: Expr)
    requires Denotes(m, k, at, Passed(b), if b then L else M, if b then M else L, p0, base, a)
    requires forall q :: q in L || q in M ==> p0 <= q < |at|
    ensures Denotes(m, k, Here(at, L), Passed(b), if b then {} else M, if b then M else {}, p0, base, a)
  {
    hide Exec, StepAt, KOk;
    var T, F := if b then L else M, if b then M else L;
    var at' := Here(at, L);
    var c, d := Code(m, k, at, T + F), Code(m, k, at', M);
    CloseResolved(m, k, at, at', T, F, L, M, p0, base, a, b);
    var T', F' := if b then {} else M, if b then M else {};
    assert T' + F' == M;
    forall s: Regs ensures Good(Exec(d, p0, |at'|, s), d, Passed(b), T', F', base, s, Eval(m, a, s)) {
      Resume(c, d, L, |at|, None, To(|at|), p0, p0, |at|, |at|, s);
      assert Good(Exec(c, p0, |at|, s), c, Passed(b), T, F, base, s, Eval(m, a, s));
      CloseRun(c, d, b, L, M, base, s, Exec(c, p0, |at|, s), Exec(d, p0, |at|, s), Eval(m, a, s));
    }
  }

  lemma CloseResolved(m: Semantics, k: seq<Val>, at: seq<Instr>, at': seq<Instr>, T: set<nat>, F: set<nat>, L: set<nat>, M: set<nat>,
                      p0: nat, base: nat, a: Expr, b: bool)
    requires Denotes(m, k, at, Passed(b), T, F, p0, base, a) && T + F == L + M && L !! M
    requires forall q :: q in L || q in M ==> p0 <= q < |at|
    requires at' == Here(at, L)
    ensures Resolved(Code(m, k, at, T + F), Code(m, k, at', M), L, |at|, None, To(|at|), p0, |at|)
    ensures p0 <= |at| && (p0 > 0 ==> !IsTest(at'[p0-1])) && forall q :: p0 <= q < |at'| ==> KOk(at'[q], |k|)
    ensures forall q :: q in M ==> at'[q].Jmp?
  {
    hide Exec, Good;
    forall q | p0 <= q < |at| ensures KOk(at'[q], |k|) { assert KOk(at[q], |k|); }
  }

  lemma CloseRun(c: Code, d: Code, b: bool, L: set<nat>, M: set<nat>, base: nat, s: Regs, o: Outcome, o': Outcome, v: Option<Val>)
    requires |d.at| == |c.at| && d.at == Here(c.at, L) && L !! M
    requires Resumes(d, L, |c.at|, |c.at|, o, o') && Good(o, c, Passed(b), if b then L else M, if b then M else L, base, s, v)
    requires forall q :: q in L || q in M ==> q < |c.at| && c.at[q].Jmp?
    ensures Good(o', d, Passed(b), if b then {} else M, if b then M else {}, base, s, v)
  {
    hide Exec, Agree;
    match o
    case Fall(t) => assert Exec(d, |c.at|, |c.at|, t) == Fall(t) by { ExecEnd(d, t); }
    case Exit(j, t) =>
      if j in L {
        ExecEnd(d, t);
        assert LandRegs(d, j, t) == t;
      } else {
        assert j - 1 >= 0 ==> d.at[j-1] == PatchCell(c.at, L, |c.at|, None, To(|c.at|), j - 1);
      }
    case _ =>
  }

  lemma ExecEnd(d: Code, t: Regs)
    ensures Exec(d, |d.at|, |d.at|, t) == Fall(t)
  {
  }

  // ---- Negation ----------------------------------------------------------------------------

  /** codenot: the lists change places, their jumps no longer yield values, and what is fetched is
      the negation of what was. */
  lemma Negate(m: Semantics, k: seq<Val>, at: seq<Instr>, kind: Kind, T: set<nat>, F: set<nat>, p0: nat, base: nat, a: Expr,
               at': seq<Instr>, kind': Kind)
    requires Denotes(m, k, at, kind, T, F, p0, base, a) && !kind.Passed? && !kind'.Passed?
    requires End(kind', |at'|) == End(kind, |at|) && (p0 > 0 ==> p0 <= |at'| && !IsTest(at'[p0-1]))
    requires Same(Code(m, k, at, T + F), Code(m, k, at', T + F), p0, End(kind, |at|))
    requires forall q :: p0 <= q < |at'| ==> KOk(at'[q], |k|)
    requires forall q :: (q in T || q in F) && p0 <= q < |at'| ==> at'[q].Jmp?
    requires forall q :: q in T || q in F ==> q < |at| && !YieldsValue(at', q)
    requires forall s: Regs :: Fetch(Code(m, k, at', {}), kind', s) ==
               (var v := Fetch(Code(m, k, at, {}), kind, s); if v.None? then None else Some(Bool(Falsy(v.value))))
    ensures Denotes(m, k, at', kind', F, T, p0, base, UnaryE(Not, a))
  {
    hide Exec, Same, KOk, Fetch;
    var c, d := Code(m, k, at, T + F), Code(m, k, at', F + T);
    assert F + T == T + F;
    forall s: Regs ensures Good(Exec(d, p0, End(kind', |at'|), s), d, kind', F, T, base, s, Eval(m, UnaryE(Not, a), s)) {
      var o := Exec(c, p0, End(kind, |at|), s);
      assert Good(o, c, kind, T, F, base, s, Eval(m, a, s));
      hide Denotes, Good;
      NotStuck(o, c, kind, T, F, base, s, Eval(m, a, s));
      ExecSame(c, d, p0, p0, End(kind, |at|), s);
      NegateRun(o, c, d, kind, T, F, base, s, Eval(m, a, s), kind');
    }
  }

  lemma NegateRun(o: Outcome, c: Code, d: Code, kind: Kind, T: set<nat>, F: set<nat>, base: nat, s: Regs, v: Option<Val>, kind': Kind)
    requires Good(o, c, kind, T, F, base, s, v) && T !! F && !kind.Passed? && !kind'.Passed?
    requires forall q :: q in T || q in F ==> !YieldsValue(d.at, q)
    requires forall s: Regs :: Fetch(Code(d.m, d.k, d.at, {}), kind', s) ==
               (var v := Fetch(Code(c.m, c.k, c.at, {}), kind, s); if v.None? then None else Some(Bool(Falsy(v.value))))
    ensures Good(o, d, kind', F, T, base, s, if v.None? then None else Some(Bool(Falsy(v.value))))
  {
    hide Agree, Fetch;
    if o.Fall? {
      FetchOpen(c, kind, o.s);
      FetchOpen(d, kind', o.s);
    } else if o.Exit? {
      assert ExitValue(d, o.j, o.s, true) == Bool(true) && ExitValue(d, o.j, o.s, false) == Bool(false);
      assert v.value == Bool(true) || v.value == Bool(false) || YieldsValue(c.at, o.j);
    }
  }

  // ---- The value in a register -------------------------------------------------------------

  /** What exp2reg appends: the two places where the booleans are loaded, if a jump needs one. */
  function Tail(kind: Kind, reg: nat, need: bool): seq<Instr> {
    if !need then []
    else (if kind.VFalse? then [] else [Jmp(2)]) + [LoadBool(reg, false, true), LoadBool(reg, true, false)]
  }

  /** exp2reg: all pending jumps get their targets, and every way ends with the value in reg. A
      comparison falls through when it is false. */
  lemma Finish(m: Semantics, k: seq<Val>, at: seq<Instr>, kind: Kind, T: set<nat>, F: set<nat>, p0: nat, base: nat, a: Expr,
               reg: nat, need: bool, dt: nat -> int)
    requires Denotes(m, k, at, kind, T, F, p0, base, a) && reg >= base
    requires kind == VNonReloc(reg) || (kind == VFalse && need)
    requires |at| > 0 ==> !IsTest(at[|at|-1])
    requires forall q :: q in T || q in F ==> p0 <= q < |at| && (need || YieldsValue(at, q))
    requires var n := |at| + |Tail(kind, reg, need)|;
      forall q :: dt(q) >= |at| && (need && q in F ==> dt(q) == n - 2) && (need && q in T ==> dt(q) == n - 1)
    ensures Denotes(m, k, Patched(at, T + F, |at| + |Tail(kind, reg, need)|, Some(reg), dt) + Tail(kind, reg, need),
                    VNonReloc(reg), {}, {}, p0, base, a)
  {
    hide Exec, KOk, StepAt, Eval;
    var tail := Tail(kind, reg, need);
    var n := |at| + |tail|;
    var at' := Patched(at, T + F, n, Some(reg), dt) + tail;
    var none: set<nat> := {};
    var c, d := Code(m, k, at, T + F), Code(m, k, at', none + none);
    TailOk(kind, reg, need, |k|);
    FinishResolved(m, k, at, kind, T, F, p0, base, a, n, reg, dt, tail, none + none);
    hide Resolved, Good, Tail;
    forall s: Regs ensures Good(Exec(d, p0, n, s), d, VNonReloc(reg), {}, {}, base, s, Eval(m, a, s)) {
      Resume(c, d, T + F, n, Some(reg), dt, p0, p0, |at|, n, s);
      GoodAt(m, k, at, kind, T, F, p0, base, a, s);
      FinishRun(c, d, kind, T, F, base, s, Exec(c, p0, |at|, s), Exec(d, p0, n, s), Eval(m, a, s), reg, need, dt);
    }
  }

  lemma FinishResolved(m: Semantics, k: seq<Val>, at: seq<Instr>, kind: Kind, T: set<nat>, F: set<nat>, p0: nat, base: nat, a: Expr,
                       n: nat, reg: nat, dt: nat -> int, tail: seq<Instr>, none: set<nat>)
    requires Denotes(m, k, at, kind, T, F, p0, base, a) && End(kind, |at|) == |at| && none == {}
    requires forall q :: q in T || q in F ==> p0 <= q < |at|
    requires n == |at| + |tail| && (forall q :: dt(q) >= |at|) && forall i :: i in tail ==> KOk(i, |k|)
    ensures var at' := Patched(at, T + F, n, Some(reg), dt) + tail;
      && Resolved(Code(m, k, at, T + F), Code(m, k, at', none), T + F, n, Some(reg), dt, p0, |at|)
      && (p0 > 0 ==> !IsTest(at'[p0-1])) && forall q :: p0 <= q < |at'| ==> KOk(at'[q], |k|)
  {
    hide Exec, Good;
    var p := Patched(at, T + F, n, Some(reg), dt);
    forall q | p0 <= q < |at| ensures KOk(p[q], |k|) { assert KOk(at[q], |k|); }
  }

  lemma TailOk(kind: Kind, reg: nat, need: bool, n: nat)
    ensures forall i :: i in Tail(kind, reg, need) ==> KOk(i, n)
  {
  }

  lemma TailRun(d: Code, kind: Kind, reg: nat, need: bool, e: nat, t: Regs)
    requires e <= |d.at| && d.at[e..] == Tail(kind, reg, need) && (e > 0 ==> !IsTest(d.at[e-1])) && d.open == {}
    requires kind.VFalse? ==> need
    ensures var n := |d.at|;
      && Exec(d, n, n, t) == Fall(t)
      && (need ==> Exec(d, n - 1, n, t) == Fall(t[reg := Bool(true)]) && Exec(d, n - 2, n, t) == Fall(t[reg := Bool(false)]))
      && Exec(d, e, n, t) == Fall(if kind.VFalse? then t[reg := Bool(false)] else t)
  {
    var n := |d.at|;
    if need {
      assert d.at[n-1] == d.at[e..][n-1-e] && d.at[n-2] == d.at[e..][n-2-e] && d.at[e] == d.at[e..][0];
      assert Exec(d, n, n, t[reg := Bool(true)]) == Fall(t[reg := Bool(true)]);
      assert Exec(d, n, n, t[reg := Bool(false)]) == Fall(t[reg := Bool(false)]);
      assert StepAt(d, n - 2, n, t) == Next(n, t[reg := Bool(false)]);
      if !kind.VFalse? { assert StepAt(d, e, n, t) == Next(n, t); }
    }
  }

  lemma FinishRun(c: Code, d: Code, kind: Kind, T: set<nat>, F: set<nat>, base: nat, s: Regs, o: Outcome, o': Outcome, v: Option<Val>,
                  reg: nat, need: bool, dt: nat -> int)
    requires |d.at| == |c.at| + |Tail(kind, reg, need)| && d.at == Patched(c.at, T + F, |d.at|, Some(reg), dt) + Tail(kind, reg, need)
    requires Resumes(d, T + F, |c.at|, |d.at|, o, o') && Good(o, c, kind, T, F, base, s, v)
    requires kind == VNonReloc(reg) || (kind == VFalse && need)
    requires |c.at| > 0 ==> !IsTest(c.at[|c.at|-1])
    requires forall q :: q in T || q in F ==> q < |c.at| && c.at[q].Jmp? && (need || YieldsValue(c.at, q))
    requires forall q :: (need && q in F ==> dt(q) == |d.at| - 2) && (need && q in T ==> dt(q) == |d.at| - 1)
    requires d.open == {} && reg >= base
    ensures Good(o', d, VNonReloc(reg), {}, {}, base, s, v)
  {
    hide Exec, StepAt, Tail, Patched, PatchCell;
    assert d.at[..|c.at|] == Patched(c.at, T + F, |d.at|, Some(reg), dt) && d.at[|c.at|..] == Tail(kind, reg, need);
    NoTestAfter(c, d, T + F, reg, dt);
    match o
    case Fall(t) =>
      TailRun(d, kind, reg, need, |c.at|, t);
    case Exit(j, t) =>
      FinishExit(c, d, T, F, j, t, |d.at|, reg, dt);
      TailRun(d, kind, reg, need, |c.at|, LandRegs(d, j, t));
    case _ =>
  }

  lemma NoTestAfter(c: Code, d: Code, l: set<nat>, reg: nat, dt: nat -> int)
    requires |c.at| <= |d.at| && d.at[..|c.at|] == Patched(c.at, l, |d.at|, Some(reg), dt)
    requires |c.at| > 0 ==> !IsTest(c.at[|c.at|-1])
    ensures |c.at| > 0 ==> !IsTest(d.at[|c.at|-1])
  {
    assert |c.at| > 0 ==> d.at[|c.at|-1] == d.at[..|c.at|][|c.at|-1];
  }

  /** Where a patched jump leads, and with which registers. */
  lemma FinishExit(c: Code, d: Code, T: set<nat>, F: set<nat>, j: nat, t: Regs, n: nat, reg: nat, dt: nat -> int)
    requires |c.at| <= |d.at| && d.at[..|c.at|] == Patched(c.at, T + F, n, Some(reg), dt)
    requires forall q :: q in T || q in F ==> q < |c.at| && c.at[q].Jmp?
    requires j in T || j in F
    ensures d.at[j].Jmp? && Landing(d, j) == if YieldsValue(c.at, j) then n else dt(j)
    ensures YieldsValue(c.at, j) ==> Get(LandRegs(d, j, t), reg) == Get(t, c.at[j-1].b)
    ensures LandRegs(d, j, t) == t || LandRegs(d, j, t) == t[reg := Get(t, c.at[j-1].b)]
    ensures !YieldsValue(c.at, j) ==> LandRegs(d, j, t) == t
  {
    assert d.at[j] == d.at[..|c.at|][j];
    assert j > 0 ==> d.at[j-1] == d.at[..|c.at|][j-1];
  }

  // ---- The same value in another form ------------------------------------------------------

  /** Nothing changes but how the value is described: VLOCAL becomes VNONRELOC, a numeral becomes a
      constant, and more constants may appear. */
  lemma Rekind(m: Semantics, k: seq<Val>, at: seq<Instr>, kind: Kind, T: set<nat>, F: set<nat>, p0: nat, base: nat, a: Expr,
               k': seq<Val>, kind': Kind)
    requires Denotes(m, k, at, kind, T, F, p0, base, a) && !kind.Passed? && !kind'.Passed? && k <= k'
    requires End(kind', |at|) == End(kind, |at|)
    requires forall s: Regs :: Fetch(Code(m, k', at, {}), kind', s) == Fetch(Code(m, k, at, {}), kind, s)
    ensures Denotes(m, k', at, kind', T, F, p0, base, a)
  {
    hide Exec, Same, Fetch, Good;
    var e := End(kind, |at|);
    var c, d := Code(m, k, at, T + F), Code(m, k', at, T + F);
    LoadSame(m, k, at, at, T + F, p0, e, k');
    forall s: Regs ensures Good(Exec(d, p0, e, s), d, kind', T, F, base, s, Eval(m, a, s)) {
      GoodAt(m, k, at, kind, T, F, p0, base, a, s);
      RekindRun(c, d, kind, T, F, p0, base, e, kind', s, Eval(m, a, s));
    }
    forall q | p0 <= q < |at| ensures KOk(at[q], |k'|) { assert KOk(at[q], |k|); }
  }

  lemma RekindRun(c: Code, d: Code, kind: Kind, T: set<nat>, F: set<nat>, p0: nat, base: nat, e: nat, kind': Kind, s: Regs, v: Option<Val>)
    requires p0 <= e <= |c.at| && c.at == d.at && c.open == d.open && Same(c, d, p0, e) && !kind.Passed? && !kind'.Passed?
    requires Good(Exec(c, p0, e, s), c, kind, T, F, base, s, v)
    requires forall s: Regs :: Fetch(Code(d.m, d.k, d.at, {}), kind', s) == Fetch(Code(c.m, c.k, c.at, {}), kind, s)
    ensures Good(Exec(d, p0, e, s), d, kind', T, F, base, s, v)
  {
    hide Exec, Same, Fetch, Agree;
    var o := Exec(c, p0, e, s);
    NotStuck(o, c, kind, T, F, base, s, v);
    ExecSame(c, d, p0, p0, e, s);
    if o.Fall? {
      FetchOpen(c, kind, o.s);
      FetchOpen(d, kind', o.s);
    }
  }

  /** luaK_goiftrue on a true constant, luaK_goiffalse on nil or false: no code. */
  lemma Pass(m: Semantics, k: seq<Val>, at: seq<Instr>, kind: Kind, T: set<nat>, F: set<nat>, p0: nat, base: nat, a: Expr, b: bool)
    requires Denotes(m, k, at, kind, T, F, p0, base, a) && !kind.Passed? && End(kind, |at|) == |at|
    requires forall s: Regs :: var v := Fetch(Code(m, k, at, {}), kind, s); v.Some? && Falsy(v.value) == !b
    ensures Denotes(m, k, at, Passed(b), T, F, p0, base, a)
  {
    hide Exec, Fetch, KOk;
    var c := Code(m, k, at, T + F);
    forall s: Regs ensures Good(Exec(c, p0, |at|, s), c, Passed(b), T, F, base, s, Eval(m, a, s)) {
      var o := Exec(c, p0, |at|, s);
      assert Good(o, c, kind, T, F, base, s, Eval(m, a, s));
      if o.Fall? { FetchOpen(c, kind, o.s); }
    }
  }

  /** luaK_goiftrue on false, luaK_goiffalse on true: a bare jump leaves with the constant. */
  lemma AddJump(m: Semantics, k: seq<Val>, at: seq<Instr>, b: bool, T: set<nat>, F: set<nat>, p0: nat, base: nat, a: Expr, link: int)
    requires Denotes(m, k, at, if b then VFalse else VTrue, T, F, p0, base, a)
    requires |at| > 0 ==> !IsTest(at[|at|-1])
    requires forall q :: q in T || q in F ==> q < |at|
    ensures Denotes(m, k, at + [Jmp(link)], Passed(b), if b then T else T + {|at|}, if b then F + {|at|} else F, p0, base, a)
  {
    hide Exec, Good, Same;
    var e := |at|;
    var at' := at + [Jmp(link)];
    var T', F' := if b then T else T + {e}, if b then F + {e} else F;
    var c, d := Code(m, k, at, T + F), Code(m, k, at', T' + F');
    assert T' + F' == T + F + {e};
    assert at'[..e] == at[..e];
    TestSame(m, k, at, at', T + F, T' + F', p0, e);
    forall s: Regs ensures Good(Exec(d, p0, e + 1, s), d, Passed(b), T', F', base, s, Eval(m, a, s)) {
      JumpRun(c, d, b, T, F, p0, e, base, s, Eval(m, a, s));
    }
    assert forall q :: p0 <= q < |at'| ==> KOk(at'[q], |k|);
  }

  lemma JumpRun(c: Code, d: Code, b: bool, T: set<nat>, F: set<nat>, p0: nat, e: nat, base: nat, s: Regs, v: Option<Val>)
    requires Same(c, d, p0, e) && p0 <= e == |c.at| && |d.at| == e + 1 && d.at == c.at + [d.at[e]] && d.at[e].Jmp?
    requires c.open == T + F && d.open == T + F + {e} && T !! F && (e > 0 ==> !IsTest(c.at[e-1]))
    requires Good(Exec(c, p0, e, s), c, if b then VFalse else VTrue, T, F, base, s, v)
    requires forall q :: q in T || q in F ==> q < e
    ensures Good(Exec(d, p0, e + 1, s), d, Passed(b), if b then T else T + {e}, if b then F + {e} else F, base, s, v)
  {
    hide Exec, StepAt, Same;
    Onward(c, d, p0, e, e + 1, s) by { NotStuck(Exec(c, p0, e, s), c, if b then VFalse else VTrue, T, F, base, s, v); }
    ExitIsOpen(c, p0, e, s);
    var o := Exec(c, p0, e, s);
    match o
    case Fall(t) => JumpStep(d, e, t);
    case Exit(j, t) => assert YieldsValue(d.at, j) == YieldsValue(c.at, j);
    case _ =>
  }

  lemma JumpStep(d: Code, e: nat, t: Regs)
    requires e + 1 == |d.at| && d.at[e].Jmp? && (e > 0 ==> !IsTest(d.at[e-1])) && e in d.open
    ensures Exec(d, e, e + 1, t) == Exit(e, t)
  {
    assert StepAt(d, e, e + 1, t) == Halt(Exit(e, t));
  }

  /** An operator on a waiting operand: `at'` may add instructions that are fetched later. */
  lemma EmitOne(m: Semantics, k: seq<Val>, at: seq<Instr>, x: Kind, p0: nat, base: nat, l: Expr, tail: seq<Instr>, kind: Kind, a: Expr)
    requires Denotes(m, k, at, x, {}, {}, p0, base, l) && Waits(x)
    requires (forall i :: i in tail ==> KOk(i, |k|)) && End(kind, |at + tail|) == |at| && !kind.Passed?
    requires forall s: Regs, t: Regs :: Eval(m, l, s) == Some(Operand(k, x, t)) ==> Fetch(Code(m, k, at + tail, {}), kind, t) == Eval(m, a, s)
    requires forall s: Regs :: Eval(m, l, s).None? ==> Eval(m, a, s).None?
    ensures Denotes(m, k, at + tail, kind, {}, {}, p0, base, a)
  {
    hide Exec, Same, KOk, Eval, Fetch, Good, Waits, Operand;
    var at' := at + tail;
    var none: set<nat> := {};
    assert none + none == none;
    var d := Code(m, k, at', none + none);
    assert at'[..|at|] == at[..|at|];
    CodeOk(m, k, at, x, {}, {}, p0, base, l);
    LoadSame(m, k, at, at', {}, p0, |at|, k);
    assert forall q :: p0 <= q < |at'| ==> KOk(at'[q], |k|);
    forall s: Regs ensures Good(Exec(d, p0, |at|, s), d, kind, {}, {}, base, s, Eval(m, a, s)) {
      EmitOneRun(m, k, at, x, p0, base, l, d, kind, s, Eval(m, a, s));
    }
  }

  lemma EmitOneRun(m: Semantics, k: seq<Val>, at: seq<Instr>, x: Kind, p0: nat, base: nat, l: Expr, d: Code, kind: Kind, s: Regs, v: Option<Val>)
    requires Denotes(m, k, at, x, {}, {}, p0, base, l) && Waits(x) && !kind.Passed?
    requires Same(Code(m, k, at, {}), d, p0, |at|) && p0 <= |at| <= |d.at| && d.open == {}
    requires forall t: Regs :: Eval(m, l, s) == Some(Operand(k, x, t)) ==> Fetch(Code(d.m, d.k, d.at, {}), kind, t) == v
    requires Eval(m, l, s).None? ==> v.None?
    ensures Good(Exec(d, p0, |at|, s), d, kind, {}, {}, base, s, v)
  {
    hide Exec, Same, Eval, Fetch, Agree, Denotes, Waits, Operand;
    var c := Code(m, k, at, {});
    OneOperand(m, k, at, x, p0, base, l, s);
    ExecSame(c, d, p0, p0, |at|, s);
    var o := Exec(c, p0, |at|, s);
    FetchOpen(d, kind, if o.Fall? then o.s else s);
  }

  /** constfolding on two numerals: no code for the operator. */
  lemma FoldPair(m: Semantics, k: seq<Val>, at: seq<Instr>, v: int, w: int, op: ArithOp, p0: nat, base: nat, l: Expr, r: Expr)
    requires Denotes2(m, k, at, VKNum(v), VKNum(w), p0, base, l, r)
    ensures Denotes(m, k, at, VKNum(m.num(op, v, w)), {}, {}, p0, base, ArithE(op, l, r))
  {
    hide Exec, KOk, Agree;
    var none: set<nat> := {};
    assert none + none == none;
    var c := Code(m, k, at, none + none);
    forall s: Regs ensures Good(Exec(c, p0, |at|, s), c, VKNum(m.num(op, v, w)), {}, {}, base, s, Eval(m, ArithE(op, l, r), s)) {
      assert Good2(Exec(Code(m, k, at, {}), p0, |at|, s), k, VKNum(v), VKNum(w), base, s, Eval(m, l, s), Eval(m, r, s));
    }
  }

  /** The threading of the pending jumps does not matter. */
  lemma Relink(m: Semantics, k: seq<Val>, at: seq<Instr>, kind: Kind, T: set<nat>, F: set<nat>, p0: nat, base: nat, a: Expr, at': seq<Instr>)
    requires Denotes(m, k, at, kind, T, F, p0, base, a) && |at'| == |at|
    requires forall q :: 0 <= q < |at| ==> at'[q] == at[q] || ((q in T || q in F) && p0 <= q < End(kind, |at|) && at[q].Jmp? && at'[q].Jmp?)
    requires forall q :: q in T || q in F ==> p0 <= q < End(kind, |at|)
    ensures Denotes(m, k, at', kind, T, F, p0, base, a)
  {
    hide Exec, Good, Fetch, KOk;
    var e := End(kind, |at|);
    var c, d := Code(m, k, at, T + F), Code(m, k, at', T + F);
    RelinkSame(c, d, p0, e);
    hide Same;
    forall s: Regs ensures Good(Exec(d, p0, e, s), d, kind, T, F, base, s, Eval(m, a, s)) {
      GoodAt(m, k, at, kind, T, F, p0, base, a, s);
      RelinkRun(c, d, kind, T, F, p0, base, e, s, Eval(m, a, s));
    }
    forall q | p0 <= q < |at| ensures KOk(at'[q], |k|) { assert KOk(at[q], |k|); JmpKOk(at'[q], |k|); }
  }

  lemma JmpKOk(i: Instr, n: nat)
    ensures i.Jmp? ==> KOk(i, n)
  {
  }

  lemma RelinkSame(c: Code, d: Code, p0: nat, e: nat)
    requires |c.at| == |d.at| && c.m == d.m && c.k == d.k && c.open == d.open && p0 <= e <= |c.at|
    requires forall q :: p0 <= q < |c.at| ==> KOk(c.at[q], |c.k|)
    requires forall q :: 0 <= q < |c.at| ==> d.at[q] == c.at[q] || (q in c.open && p0 <= q && c.at[q].Jmp? && d.at[q].Jmp?)
    requires p0 > 0 ==> !IsTest(c.at[p0-1])
    ensures Same(c, d, p0, e)
  {
    hide KOk;
  }

  lemma RelinkRun(c: Code, d: Code, kind: Kind, T: set<nat>, F: set<nat>, p0: nat, base: nat, e: nat, s: Regs, v: Option<Val>)
    requires |c.at| == |d.at| && c.m == d.m && c.k == d.k && c.open == d.open && p0 <= e == End(kind, |c.at|)
    requires forall q :: 0 <= q < |c.at| ==> d.at[q] == c.at[q] || (q < e && c.at[q].Jmp? && d.at[q].Jmp?)
    requires Same(c, d, p0, e) && Good(Exec(c, p0, e, s), c, kind, T, F, base, s, v) && forall q :: q in T || q in F ==> q < |c.at|
    ensures Good(Exec(d, p0, e, s), d, kind, T, F, base, s, v)
  {
    hide Exec, Same, Agree, ValueOf, TestValue;
    NotStuck(Exec(c, p0, e, s), c, kind, T, F, base, s, v);
    ExecSame(c, d, p0, p0, e, s);
    FetchSame(c, d, kind, e, if Exec(c, p0, e, s).Fall? then Exec(c, p0, e, s).s else s);
  }

  lemma FetchSame(c: Code, d: Code, kind: Kind, e: nat, s: Regs)
    requires |c.at| == |d.at| && c.m == d.m && c.k == d.k && e == End(kind, |c.at|)
    requires forall q :: 0 <= q < |c.at| ==> d.at[q] == c.at[q] || (q < e && c.at[q].Jmp? && d.at[q].Jmp?)
    ensures Fetch(c, kind, s) == Fetch(d, kind, s)
  {
  }
}
