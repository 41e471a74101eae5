/** What is known, step by step, of code while an expression is being compiled. */
module ExprState {
  import opened LuaVm
  import opened ExprSem
  import opened JumpLists

  /** expdesc: the kind of the value, the list of exits when true and the list of exits when false. */
  datatype ExpDesc = ExpDesc(kind: Kind, t: int, f: int)

  /** The part of FuncState that decides what has been compiled; jl are the jumps on list jpc. */
  datatype St = St(code: seq<Instr>, jpc: int, jl: set<nat>, k: seq<Val>)

  /** The code as it will be: the jumps on list jpc lead to the next instruction. */
  function View(x: St): (r: seq<Instr>)
    ensures |r| == |x.code|
  {
    Here(x.code, x.jl)
  }

  /** luaK_code. */
  function Emit(x: St, i: Instr): St { St(View(x) + [i], NO_JUMP, {}, x.k) }

  /** The code from p0 on is to compute a and to leave registers below base alone. */
  datatype Goal = Goal(p0: nat, base: nat, a: Expr)

  ghost predicate KindOk(x: St, m: Semantics, nact: nat, free: nat, kind: Kind, L: set<nat>, base: nat) {
    match kind
    case VK(i) => i < |x.k|
    case VKNum(n) => !m.isNan(n)
    case VLocal(r) => r < nact
    case VNonReloc(r) => r < nact || (base <= r < free && (L != {} ==> x.jl == {}))
    case VReloc(pc) => pc + 1 == |x.code| && x.jl == {} && (x.code[pc].ArithI? || x.code[pc].UnaryI?)
    case VJmp(pc) => pc + 1 == |x.code| && pc > 0 && x.jl == {} && x.code[pc-1].Compare? && x.code[pc] == Jmp(NO_JUMP)
    case _ => true
  }

  predicate NoTest(code: seq<Instr>) { |code| > 0 ==> !IsTest(code[|code|-1]) }

  ghost predicate Shape(x: St, m: Semantics, nact: nat, free: nat, e: ExpDesc, T: set<nat>, F: set<nat>, g: Goal) {
    && Linked(x.code, e.t, T) && Linked(x.code, e.f, F) && T !! F && (T + F) !! x.jl
    && g.p0 <= End(e.kind, |x.code|) <= |x.code| && (forall q :: q in T || q in F ==> g.p0 <= q < End(e.kind, |x.code|))
    && KindOk(x, m, nact, free, e.kind, T + F, g.base) && NoTest(x.code) && nact <= g.base <= free
    && Linked(x.code, x.jpc, x.jl)
  }

  ghost predicate Means(x: St, m: Semantics, kind: Kind, T: set<nat>, F: set<nat>, g: Goal) {
    Denotes(m, x.k, View(x), kind, T, F, g.p0, g.base, g.a)
  }

  /** e, with its lists T and F, stands for the value of g.a. */
  ghost predicate ExpOk(x: St, m: Semantics, nact: nat, free: nat, e: ExpDesc, T: set<nat>, F: set<nat>, g: Goal) {
    Shape(x, m, nact, free, e, T, F, g) && Means(x, m, e.kind, T, F, g)
  }

  /** From x to x' the code before p0 stays as it was going to be, and constants are only added. */
  ghost predicate Grown(x: St, x': St, p0: nat) {
    && p0 <= |x.code| && p0 <= |x'.code| && View(x')[..p0] == View(x)[..p0] && x.k <= x'.k
    && forall q :: q in x'.jl && q < p0 ==> q in x.jl
  }

  lemma GrownTrans(x: St, y: St, z: St, p0: nat, p1: nat)
    requires Grown(x, y, p0) && Grown(y, z, p1) && p0 <= p1
    ensures Grown(x, z, p0)
  {
    hide Here;
    assert View(z)[..p0] == View(z)[..p1][..p0] == View(y)[..p1][..p0] == View(y)[..p0];
  }

  lemma GrownSelf(x: St, p0: nat)
    requires p0 <= |x.code|
    ensures Grown(x, x, p0)
  {
  }

  /** A list that waits through such a step stays as it is. */
  lemma Survives(x: St, x': St, p0: nat, head: int, L: set<nat>)
    requires Grown(x, x', p0) && Linked(x.code, head, L) && L !! x.jl && forall q :: q in L ==> q < p0
    ensures Linked(x'.code, head, L) && L !! x'.jl
  {
    LinkedBound(x.code, head, L);
    forall q | q in L ensures q < |x'.code| && x'.code[q] == x.code[q] {
      assert q !in x'.jl && q !in x.jl;
      assert View(x)[q] == PatchCell(x.code, x.jl, |x.code|, None, To(|x.code|), q) == x.code[q];
      assert View(x')[q] == PatchCell(x'.code, x'.jl, |x'.code|, None, To(|x'.code|), q);
      assert View(x')[..p0][q] == View(x)[..p0][q];
      assert View(x')[q] == x.code[q];
    }
    LinkedFrame(x.code, x'.code, head, L);
  }

  // ---- One step of the code generator ------------------------------------------------------

  lemma EmitLinked(x: St, i: Instr, head: int, L: set<nat>)
    requires Linked(x.code, head, L) && L !! x.jl
    ensures Linked(Emit(x, i).code, head, L)
  {
    HereLinked(x.code, x.jl, head, L);
    LinkedBound(View(x), head, L);
    LinkedFrame(View(x), Emit(x, i).code, head, L);
  }

  lemma EmitView(x: St, i: Instr, p0: nat)
    requires p0 <= |x.code|
    ensures View(Emit(x, i)) == Emit(x, i).code == View(x) + [i]
    ensures Grown(x, Emit(x, i), p0)
  {
    HereNone(View(x) + [i]);
    hide Here;
    assert (View(x) + [i])[..p0] == View(x)[..p0];
  }

  /** A state without pending jumps. */
  lemma PlainView(x: St)
    requires x.jl == {}
    ensures View(x) == x.code
  {
    HereNone(x.code);
  }

  // ---- Loading, testing, closing -----------------------------------------------------------

  lemma TakeLinked(code: seq<Instr>, e: nat, tail: seq<Instr>, head: int, L: set<nat>)
    requires e <= |code| && Linked(code, head, L) && forall q :: q in L ==> q < e
    ensures Linked(code[..e] + tail, head, L)
  {
    LinkedFrame(code, code[..e] + tail, head, L);
  }

  /** What code with a new last part keeps of the lists and of the code before. */
  lemma Replaced(x: St, x': St, e: nat, tail: seq<Instr>, p0: nat, t: int, T: set<nat>, f: int, F: set<nat>)
    requires p0 <= e <= |x.code| && x'.code == View(x)[..e] + tail && x'.jl == {} && x'.jpc == NO_JUMP && x.k <= x'.k
    requires Linked(x.code, t, T) && Linked(x.code, f, F) && (T + F) !! x.jl && forall q :: q in T || q in F ==> q < e
    ensures View(x') == x'.code && Grown(x, x', p0)
    ensures Linked(x'.code, t, T) && Linked(x'.code, f, F) && Linked(x'.code, x'.jpc, x'.jl)
  {
    PlainView(x');
    HereLinked(x.code, x.jl, t, T);
    HereLinked(x.code, x.jl, f, F);
    TakeLinked(View(x), e, tail, t, T);
    TakeLinked(View(x), e, tail, f, F);
    LinkedNone(x'.code);
    assert View(x')[..p0] == View(x)[..p0];
  }

  /** discharge2reg: the last part of the code becomes an instruction that sets a register. */
  lemma Loaded(x: St, x': St, m: Semantics, nact: nat, free: nat, free': nat, e: ExpDesc, T: set<nat>, F: set<nat>, g: Goal, i: Instr)
    requires ExpOk(x, m, nact, free, e, T, F, g) && !e.kind.Passed? && !e.kind.VJmp?
    requires Loads(m, x.k, View(x), e.kind, x'.k, i) && g.base <= i.a < free'
    requires x'.code == View(x)[..End(e.kind, |x.code|)] + [i] && x'.jl == {} && x'.jpc == NO_JUMP
    ensures ExpOk(x', m, nact, free', ExpDesc(VNonReloc(i.a), e.t, e.f), T, F, g) && Grown(x, x', g.p0)
  {
    hide Linked, Denotes, Loads, Here, KOk;
    LoadsMore(m, x.k, View(x), e.kind, x'.k, i);
    Replaced(x, x', End(e.kind, |x.code|), [i], g.p0, e.t, T, e.f, F);
    Load(m, x.k, View(x), e.kind, T, F, g.p0, g.base, g.a, x'.k, i);
  }

  lemma LoadsMore(m: Semantics, k: seq<Val>, at: seq<Instr>, kind: Kind, k': seq<Val>, i: Instr)
    requires Loads(m, k, at, kind, k', i)
    ensures k <= k' && IsLoad(i)
  {
  }

  /** After a test and its jump at j, which is not on a list yet: the code goes on for true (b) or
      false values, or with the value false after a comparison. */
  ghost predicate Loose(x: St, m: Semantics, nact: nat, free: nat, e: ExpDesc, T: set<nat>, F: set<nat>, g: Goal, b: bool, j: nat) {
    && Linked(x.code, e.t, T) && Linked(x.code, e.f, F) && T !! F && Linked(x.code, j, {j}) && Linked(x.code, x.jpc, x.jl)
    && x.jl == {} && j + 1 == |x.code| && g.p0 <= j && nact <= g.base <= free && NoTest(x.code)
    && (forall q :: q in T || q in F ==> g.p0 <= q < j)
    && Means(x, m, Passed(b), if b then T else T + {j}, if b then F + {j} else F, g)
  }

  lemma Tested(x: St, x': St, m: Semantics, nact: nat, free: nat, free': nat, e: ExpDesc, T: set<nat>, F: set<nat>, g: Goal, i: Instr, b: bool)
    requires ExpOk(x, m, nact, free, e, T, F, g) && !e.kind.Passed? && IsTest(i) && KOk(i, |x.k|) && g.base <= free'
    requires forall s: Regs :: TestsFor(m, x.k, i, b, s, Fetch(Code(m, x.k, View(x), {}), e.kind, s))
    requires x'.code == View(x)[..End(e.kind, |x.code|)] + [i, Jmp(NO_JUMP)] && x'.jl == {} && x'.jpc == NO_JUMP && x'.k == x.k
    ensures Loose(x', m, nact, free', e, T, F, g, b, End(e.kind, |x.code|) + 1) && Grown(x, x', g.p0)
  {
    hide Linked, Denotes, TestsFor, Here, KOk, Fetch;
    var n := End(e.kind, |x.code|);
    Replaced(x, x', n, [i, Jmp(NO_JUMP)], g.p0, e.t, T, e.f, F);
    LinkedOne(x'.code, n + 1);
    AddTest(m, x.k, View(x), e.kind, T, F, g.p0, g.base, g.a, i, NO_JUMP, b, Passed(b));
  }

  /** luaK_jump alone, for false (b) or true. */
  lemma Jumped(x: St, x': St, m: Semantics, nact: nat, free: nat, e: ExpDesc, T: set<nat>, F: set<nat>, g: Goal, b: bool)
    requires ExpOk(x, m, nact, free, e, T, F, g) && e.kind == (if b then VFalse else VTrue)
    requires x.jl == {} && x' == Emit(x, Jmp(NO_JUMP))
    ensures Loose(x', m, nact, free, e, T, F, g, b, |x.code|) && Grown(x, x', g.p0)
  {
    hide Linked, Denotes, Here;
    PlainView(x);
    assert View(x)[..|x.code|] == View(x);
    Replaced(x, x', |x.code|, [Jmp(NO_JUMP)], g.p0, e.t, T, e.f, F);
    LinkedOne(x'.code, |x.code|);
    AddJump(m, x.k, View(x), b, T, F, g.p0, g.base, g.a, NO_JUMP);
  }

  /** The loose jump joins the false list (b) or the true list. */
  lemma Joined(x: St, x': St, m: Semantics, nact: nat, free: nat, e: ExpDesc, T: set<nat>, F: set<nat>, g: Goal, b: bool, j: nat, r: int)
    requires Loose(x, m, nact, free, e, T, F, g, b, j)
    requires x' == x.(code := x'.code) && Rethreaded(x.code, x'.code, if b then F else T)
    requires Linked(x'.code, r, (if b then F else T) + {j})
    ensures ExpOk(x', m, nact, free, ExpDesc(Passed(b), if b then e.t else r, if b then r else e.f),
                  if b then T else T + {j}, if b then F + {j} else F, g)
    ensures Grown(x, x', g.p0)
  {
    hide Linked, Denotes, Means, Rethreaded, View;
    var none: set<nat> := {};
    RethreadedLinked(x.code, x'.code, if b then F else T, if b then e.t else e.f, if b then T else F);
    RethreadedLinked(x.code, x'.code, if b then F else T, x.jpc, none);
    JoinedMeans(x, x', m, Passed(b), if b then T else T + {j}, if b then F + {j} else F, g, if b then F else T);
    NoTestSame(x.code, x'.code, if b then F else T);
  }

  lemma NoTestSame(code: seq<Instr>, code': seq<Instr>, A: set<nat>)
    requires Rethreaded(code, code', A)
    ensures NoTest(code') == NoTest(code) && |code'| == |code|
  {
  }

  /** The threading of pending jumps changes neither what the code means nor the code before them. */
  lemma JoinedMeans(x: St, x': St, m: Semantics, kind: Kind, T: set<nat>, F: set<nat>, g: Goal, A: set<nat>)
    requires Means(x, m, kind, T, F, g) && x' == x.(code := x'.code) && Rethreaded(x.code, x'.code, A)
    requires A <= T + F && A !! x.jl && g.p0 <= |x.code| && forall q :: q in T || q in F ==> g.p0 <= q < End(kind, |x.code|)
    ensures Means(x', m, kind, T, F, g) && Grown(x, x', g.p0)
  {
    hide Denotes;
    assert View(x')[..g.p0] == View(x)[..g.p0];
    Relink(m, x.k, View(x), kind, T, F, g.p0, g.base, g.a, View(x'));
  }

  /** No test is needed. */
  lemma Through(x: St, m: Semantics, nact: nat, free: nat, e: ExpDesc, T: set<nat>, F: set<nat>, g: Goal, b: bool)
    requires ExpOk(x, m, nact, free, e, T, F, g) && !e.kind.Passed? && End(e.kind, |x.code|) == |x.code|
    requires forall s: Regs :: var v := Fetch(Code(m, x.k, View(x), {}), e.kind, s); v.Some? && Falsy(v.value) == !b
    ensures ExpOk(x, m, nact, free, ExpDesc(Passed(b), e.t, e.f), T, F, g)
  {
    hide Linked, Denotes, Here, Fetch;
    Pass(m, x.k, View(x), e.kind, T, F, g.p0, g.base, g.a, b);
  }

  /** luaK_patchtohere on the list that goes on. */
  lemma Closed(x: St, x': St, m: Semantics, nact: nat, free: nat, e: ExpDesc, T: set<nat>, F: set<nat>, g: Goal, b: bool)
    requires ExpOk(x, m, nact, free, e, T, F, g) && e.kind == Passed(b)
    requires var L := if b then T else F;
      x'.k == x.k && x'.jl == x.jl + L && Rethreaded(x.code, x'.code, x.jl) && Linked(x'.code, x'.jpc, x'.jl)
    ensures ExpOk(x', m, nact, free, ExpDesc(Passed(b), if b then NO_JUMP else e.t, if b then e.f else NO_JUMP),
                  if b then {} else T, if b then F else {}, g)
    ensures Grown(x, x', g.p0)
  {
    hide Linked, Denotes, Means, Rethreaded, View, Here;
    var L, M := if b then T else F, if b then F else T;
    RethreadedLinked(x.code, x'.code, x.jl, if b then e.f else e.t, M);
    LinkedNone(x'.code);
    NoTestSame(x.code, x'.code, x.jl);
    LinkedBound(x.code, x.jpc, x.jl);
    LinkedBound(x.code, if b then e.t else e.f, L);
    ClosedMeans(x, x', m, g, b, L, M);
  }

  lemma ClosedMeans(x: St, x': St, m: Semantics, g: Goal, b: bool, L: set<nat>, M: set<nat>)
    requires Means(x, m, Passed(b), if b then L else M, if b then M else L, g) && L !! x.jl
    requires x'.k == x.k && x'.jl == x.jl + L && Rethreaded(x.code, x'.code, x.jl)
    requires forall q :: q in L || q in M ==> g.p0 <= q < |x.code|
    requires forall q :: q in L || q in x.jl ==> q < |x.code| && x.code[q].Jmp?
    ensures Means(x', m, Passed(b), if b then {} else M, if b then M else {}, g) && Grown(x, x', g.p0)
  {
    hide Denotes;
    assert Rethreaded(x.code, x'.code, x.jl + L);
    HereHere(x.code, x'.code, x.jl, L);
    hide Rethreaded;
    CloseHere(m, x.k, View(x), b, L, M, g.p0, g.base, g.a);
    CodeOk(m, x.k, View(x), Passed(b), if b then L else M, if b then M else L, g.p0, g.base, g.a);
    HereBelow(View(x), L, g.p0);
  }

  lemma HereBelow(at: seq<Instr>, L: set<nat>, p0: nat)
    requires p0 <= |at| && (forall q :: q in L ==> p0 <= q) && (p0 > 0 ==> !IsTest(at[p0-1]))
    ensures Here(at, L)[..p0] == at[..p0]
  {
  }

  // ---- The value in a register -------------------------------------------------------------

  /** exp2reg on a comparison: its jump joins the true list, and what goes on is false. */
  lemma Compared(x: St, x': St, m: Semantics, nact: nat, free: nat, e: ExpDesc, T: set<nat>, F: set<nat>, g: Goal, t: int)
    requires ExpOk(x, m, nact, free, e, T, F, g) && e.kind.VJmp?
    requires x' == x.(code := x'.code) && Rethreaded(x.code, x'.code, T) && Linked(x'.code, t, T + {e.kind.pc})
    ensures ExpOk(x', m, nact, free, ExpDesc(VFalse, t, e.f), T + {e.kind.pc}, F, g) && Grown(x, x', g.p0)
  {
    hide Linked, Denotes, Rethreaded, View, Means;
    RethreadedLinked(x.code, x'.code, T, e.f, F);
    RethreadedLinked(x.code, x'.code, T, x.jpc, x.jl);
    NoTestSame(x.code, x'.code, T);
    ComparedMeans(x, m, e.kind.pc, T, F, g);
    JoinedMeans(x, x', m, VFalse, T + {e.kind.pc}, F, g, T);
  }

  lemma ComparedMeans(x: St, m: Semantics, pc: nat, T: set<nat>, F: set<nat>, g: Goal)
    requires Means(x, m, VJmp(pc), T, F, g) && pc + 1 == |x.code| && pc > g.p0 && x.jl == {} && x.code[pc-1].Compare? && x.code[pc] == Jmp(NO_JUMP)
    requires forall q :: q in T || q in F ==> q < pc - 1
    ensures Means(x, m, VFalse, T + {pc}, F, g)
  {
    hide Denotes;
    PlainView(x);
    var at, i := x.code, x.code[pc-1];
    assert at == at[..pc-1] + [i, Jmp(NO_JUMP)];
    KOkAt(m, x.k, at, VJmp(pc), T, F, g.p0, g.base, g.a, pc - 1);
    hide KOk;
    AddTest(m, x.k, at, VJmp(pc), T, F, g.p0, g.base, g.a, i, NO_JUMP, false, VFalse);
  }

  lemma KOkAt(m: Semantics, k: seq<Val>, at: seq<Instr>, kind: Kind, T: set<nat>, F: set<nat>, p0: nat, base: nat, a: Expr, q: nat)
    requires Denotes(m, k, at, kind, T, F, p0, base, a) && p0 <= q < |at|
    ensures KOk(at[q], |k|)
  {
  }

  /** The end of exp2reg: the places that load booleans are there, and both lists are patched. */
  lemma Finished(x: St, x': St, m: Semantics, nact: nat, free: nat, e: ExpDesc, T: set<nat>, F: set<nat>, g: Goal,
                 reg: nat, need: bool, raw: seq<Instr>, pf: int, pt: int)
    requires ExpOk(x, m, nact, free, e, T, F, g) && x.jl == {} && g.base <= reg < free
    requires e.kind == VNonReloc(reg) || (e.kind == VFalse && need)
    requires need || forall q :: q in T || q in F ==> YieldsValue(x.code, q)
    requires |raw| == |Tail(e.kind, reg, need)|
    requires var n := |x.code| + |raw|;
      && (need ==> pf == n - 2 && pt == n - 1 && raw[|raw|-2..] == [LoadBool(reg, false, true), LoadBool(reg, true, false)])
      && (need && !e.kind.VFalse? ==> raw[0] == Jmp(NO_JUMP))
      && x'.code == Patched(Patched(x.code + raw, F, n, Some(reg), To(pf)), T, n, Some(reg), To(pt))
      && x'.jl == (if need && !e.kind.VFalse? then {|x.code|} else {}) && x'.k == x.k
    requires Linked(x'.code, x'.jpc, x'.jl)
    ensures ExpOk(x', m, nact, free, ExpDesc(VNonReloc(reg), NO_JUMP, NO_JUMP), {}, {}, g) && Grown(x, x', g.p0)
  {
    hide Linked, Denotes, Tail, Means, View, Patched;
    LinkedNone(x'.code);
    LinkedBoth(x.code, e.t, T, e.f, F);
    FinishedMeans(x, x', m, e.kind, T, F, g, reg, need, raw, pf, pt);
    FinishedNoTest(x.code, x'.code, T, F, raw, |x.code| + |raw|, reg, pf, pt, need, e.kind);
  }

  lemma FinishedMeans(x: St, x': St, m: Semantics, kind: Kind, T: set<nat>, F: set<nat>, g: Goal,
                      reg: nat, need: bool, raw: seq<Instr>, pf: int, pt: int)
    requires Means(x, m, kind, T, F, g) && T !! F && x.jl == {} && g.base <= reg && NoTest(x.code) && g.p0 <= |x.code|
    requires kind == VNonReloc(reg) || (kind == VFalse && need)
    requires forall q :: q in T || q in F ==> g.p0 <= q < |x.code| && x.code[q].Jmp?
    requires need || forall q :: q in T || q in F ==> YieldsValue(x.code, q)
    requires |raw| == |Tail(kind, reg, need)|
    requires var n := |x.code| + |raw|;
      && (need ==> pf == n - 2 && pt == n - 1 && raw[|raw|-2..] == [LoadBool(reg, false, true), LoadBool(reg, true, false)])
      && (need && !kind.VFalse? ==> raw[0] == Jmp(NO_JUMP))
      && x'.code == Patched(Patched(x.code + raw, F, n, Some(reg), To(pf)), T, n, Some(reg), To(pt))
      && x'.jl == (if need && !kind.VFalse? then {|x.code|} else {}) && x'.k == x.k
    ensures Means(x', m, VNonReloc(reg), {}, {}, g) && Grown(x, x', g.p0)
  {
    hide Denotes, View, Patched, KOk, YieldsValue, IsTest, End;
    var n := |x.code| + |raw|;
    var dt: nat -> int := q => if !need then n else if q in T then pt else pf;
    PlainView(x);
    FinishedView(x, x', kind, T, F, reg, need, raw, pf, pt, dt);
    CodeOk(m, x.k, x.code, kind, T, F, g.p0, g.base, g.a);
    TailSize(kind, reg, need);
    hide Tail;
    Finish(m, x.k, x.code, kind, T, F, g.p0, g.base, g.a, reg, need, dt);
    FinishedBelow(x.code, T + F, n, reg, dt, Tail(kind, reg, need), g.p0);
    NoneMore(x, x', g.p0);
  }

  lemma TailSize(kind: Kind, reg: nat, need: bool)
    ensures |Tail(kind, reg, need)| == if !need then 0 else if kind.VFalse? then 2 else 3
  {
  }

  lemma NoneMore(x: St, x': St, p0: nat)
    requires p0 <= |x.code| && p0 <= |x'.code| && View(x')[..p0] == View(x)[..p0] && x.k <= x'.k && forall q :: q in x'.jl ==> q >= p0
    ensures Grown(x, x', p0)
  {
  }

  lemma LinkedBoth(code: seq<Instr>, t: int, T: set<nat>, f: int, F: set<nat>)
    requires Linked(code, t, T) && Linked(code, f, F)
    ensures forall q :: q in T || q in F ==> q < |code| && code[q].Jmp?
  {
    LinkedBound(code, t, T);
    LinkedBound(code, f, F);
  }

  lemma FinishedView(x: St, x': St, kind: Kind, T: set<nat>, F: set<nat>, reg: nat, need: bool, raw: seq<Instr>, pf: int, pt: int, dt: nat -> int)
    requires x.jl == {} && T !! F && (forall q :: q in T || q in F ==> q < |x.code| && x.code[q].Jmp?) && NoTest(x.code)
    requires need || forall q :: q in T || q in F ==> YieldsValue(x.code, q)
    requires |raw| == |Tail(kind, reg, need)|
    requires var n := |x.code| + |raw|;
      && (need ==> pf == n - 2 && pt == n - 1 && raw[|raw|-2..] == [LoadBool(reg, false, true), LoadBool(reg, true, false)])
      && (need && !kind.VFalse? ==> raw[0] == Jmp(NO_JUMP))
      && x'.code == Patched(Patched(x.code + raw, F, n, Some(reg), To(pf)), T, n, Some(reg), To(pt))
      && x'.jl == (if need && !kind.VFalse? then {|x.code|} else {})
      && forall q :: dt(q) == if !need then n else if q in T then pt else pf
    ensures View(x') == Patched(x.code, T + F, |x.code| + |raw|, Some(reg), dt) + Tail(kind, reg, need)
  {
    var n, e := |x.code| + |raw|, |x.code|;
    var v, w := View(x'), Patched(x.code, T + F, n, Some(reg), dt) + Tail(kind, reg, need);
    assert need ==> raw[|raw|-2..][0] == raw[|raw|-2] && raw[|raw|-2..][1] == raw[|raw|-1];
    hide Patched;
    forall q | 0 <= q < n ensures v[q] == w[q] {
      if q < e {
        FinishedCell(x.code, raw, T, F, n, reg, pf, pt, dt, need, q);
        assert q + 1 in x'.jl ==> !x'.code[q].TestSet?;
      } else {
        RawCell(x.code, raw, T, F, n, reg, pf, pt, q);
      }
    }
  }

  lemma FinishedCell(code: seq<Instr>, raw: seq<Instr>, T: set<nat>, F: set<nat>, n: nat, reg: nat, pf: int, pt: int, dt: nat -> int, need: bool, q: nat)
    requires T !! F && (forall q :: q in T || q in F ==> q < |code| && code[q].Jmp?) && q < |code|
    requires need || forall q :: q in T || q in F ==> YieldsValue(code, q)
    requires dt(q) == if !need then n else if q in T then pt else pf
    ensures Patched(Patched(code + raw, F, n, Some(reg), To(pf)), T, n, Some(reg), To(pt))[q] == PatchCell(code, T + F, n, Some(reg), dt, q)
  {
    var c1 := Patched(code + raw, F, n, Some(reg), To(pf));
    assert c1[q] == PatchCell(code + raw, F, n, Some(reg), To(pf), q);
    if q > 0 { assert c1[q-1] == PatchCell(code + raw, F, n, Some(reg), To(pf), q - 1); }
  }

  lemma RawCell(code: seq<Instr>, raw: seq<Instr>, T: set<nat>, F: set<nat>, n: nat, reg: nat, pf: int, pt: int, q: nat)
    requires (forall q :: q in T || q in F ==> q < |code|) && |code| <= q < |code| + |raw|
    ensures Patched(Patched(code + raw, F, n, Some(reg), To(pf)), T, n, Some(reg), To(pt))[q] == raw[q-|code|]
  {
  }

  lemma FinishedBelow(at: seq<Instr>, L: set<nat>, n: nat, reg: nat, dt: nat -> int, tail: seq<Instr>, p0: nat)
    requires p0 <= |at| && (forall q :: q in L ==> p0 <= q) && (p0 > 0 ==> !IsTest(at[p0-1]))
    ensures (Patched(at, L, n, Some(reg), dt) + tail)[..p0] == at[..p0]
  {
  }

  lemma FinishedNoTest(code: seq<Instr>, code': seq<Instr>, T: set<nat>, F: set<nat>, raw: seq<Instr>, n: nat, reg: nat, pf: int, pt: int, need: bool, kind: Kind)
    requires |raw| == |Tail(kind, reg, need)| && NoTest(code) && (forall q :: q in T || q in F ==> q < |code|)
    requires need ==> raw[|raw|-2..] == [LoadBool(reg, false, true), LoadBool(reg, true, false)]
    requires code' == Patched(Patched(code + raw, F, n, Some(reg), To(pf)), T, n, Some(reg), To(pt))
    ensures NoTest(code')
  {
    if need { assert raw[|raw|-2..][1] == raw[|raw|-1]; }
  }

  // ---- Negation ----------------------------------------------------------------------------

  /** codenot: x1 is the state before removevalues. */
  lemma Negated(x: St, x1: St, x': St, m: Semantics, nact: nat, free: nat, free': nat, e: ExpDesc, T: set<nat>, F: set<nat>, g: Goal, kind': Kind)
    requires ExpOk(x, m, nact, free, e, T, F, g) && !e.kind.Passed? && !kind'.Passed? && g.base <= free'
    requires var n := End(e.kind, |x.code|); n == End(kind', |x1.code|) <= |x1.code| && View(x1)[..n] == View(x)[..n]
    requires Linked(x1.code, e.t, T) && Linked(x1.code, e.f, F) && Linked(x1.code, x1.jpc, x1.jl) && (T + F) !! x1.jl && x1.k == x.k
    requires x1.jl <= x.jl && x' == x1.(code := Valueless(x1.code, T + F)) && KindOk(x', m, nact, free', kind', T + F, g.base) && NoTest(x1.code)
    requires forall q :: End(e.kind, |x.code|) <= q < |x1.code| ==> KOk(View(x1)[q], |x.k|)
    requires forall s: Regs :: Fetch(Code(m, x'.k, View(x'), {}), kind', s) ==
               (var v := Fetch(Code(m, x.k, View(x), {}), e.kind, s); if v.None? then None else Some(Bool(Falsy(v.value))))
    ensures ExpOk(x', m, nact, free', ExpDesc(kind', e.f, e.t), F, T, g.(a := UnaryE(Not, g.a))) && Grown(x, x', g.p0)
  {
    hide Linked, Denotes, View, Means, Fetch, KOk, Valueless;
    ValuelessLinked(x1.code, T + F, e.t, T);
    ValuelessLinked(x1.code, T + F, e.f, F);
    ValuelessLinked(x1.code, T + F, x1.jpc, x1.jl);
    LinkedBound(x1.code, x1.jpc, x1.jl);
    LinkedBoth(x1.code, e.t, T, e.f, F);
    NoTestValueless(x1.code, T + F);
    NegatedMeans(x, x1, x', m, e.kind, T, F, g, kind');
  }

  lemma NoTestValueless(code: seq<Instr>, L: set<nat>)
    requires NoTest(code)
    ensures NoTest(Valueless(code, L))
  {
  }

  lemma HereValueless(code: seq<Instr>, J: set<nat>, M: set<nat>)
    requires J !! M && (forall q :: q in J || q in M ==> q < |code| && code[q].Jmp?)
    ensures Here(Valueless(code, M), J) == Valueless(Here(code, J), M)
  {
    var v, w := Here(Valueless(code, M), J), Valueless(Here(code, J), M);
    forall q | 0 <= q < |code| ensures v[q] == w[q] {
      assert v[q] == PatchCell(Valueless(code, M), J, |code|, None, To(|code|), q);
    }
  }

  lemma NegatedMeans(x: St, x1: St, x': St, m: Semantics, kind: Kind, T: set<nat>, F: set<nat>, g: Goal, kind': Kind)
    requires Means(x, m, kind, T, F, g) && !kind.Passed? && !kind'.Passed?
    requires var n := End(kind, |x.code|); n == End(kind', |x1.code|) <= |x1.code| && n <= |x.code| && View(x1)[..n] == View(x)[..n]
    requires x1.k == x.k && x1.jl <= x.jl && x' == x1.(code := Valueless(x1.code, T + F)) && (T + F) !! x1.jl
    requires forall q :: q in x1.jl || q in T || q in F ==> q < |x1.code| && x1.code[q].Jmp?
    requires forall q :: q in T || q in F ==> g.p0 <= q < End(kind, |x.code|)
    requires forall q :: End(kind, |x.code|) <= q < |x1.code| ==> KOk(View(x1)[q], |x.k|)
    requires forall s: Regs :: Fetch(Code(m, x'.k, View(x'), {}), kind', s) ==
               (var v := Fetch(Code(m, x.k, View(x), {}), kind, s); if v.None? then None else Some(Bool(Falsy(v.value))))
    ensures Means(x', m, kind', F, T, g.(a := UnaryE(Not, g.a))) && Grown(x, x', g.p0)
  {
    hide Denotes, Fetch, KOk, Here, Valueless, End, IsTest, YieldsValue, PatchCell, View;
    var at, at1, n := View(x), View(x1), End(kind, |x.code|);
    ViewValueless(x1, x', T + F);
    CodeOk(m, x.k, at, kind, T, F, g.p0, g.base, g.a);
    NegatedSame(m, x.k, at, at1, T, F, g.p0, n);
    hide Same;
    Negate(m, x.k, at, kind, T, F, g.p0, g.base, g.a, View(x'), kind');
    assert View(x')[..g.p0] == at1[..n][..g.p0];
  }

  lemma ViewValueless(x: St, x': St, M: set<nat>)
    requires x' == x.(code := Valueless(x.code, M)) && M !! x.jl
    requires forall q :: q in x.jl || q in M ==> q < |x.code| && x.code[q].Jmp?
    ensures View(x') == Valueless(View(x), M)
    ensures forall q :: q in M ==> q < |View(x)| && View(x)[q].Jmp?
  {
    hide Valueless, Here;
    HereValueless(x.code, x.jl, M);
  }

  lemma NegatedSame(m: Semantics, k: seq<Val>, at: seq<Instr>, at1: seq<Instr>, T: set<nat>, F: set<nat>, p0: nat, n: nat)
    requires p0 <= n <= |at| && n <= |at1| && at1[..n] == at[..n] && (p0 > 0 ==> !IsTest(at[p0-1]))
    requires forall q :: q in T || q in F ==> p0 <= q < n
    requires (forall q :: p0 <= q < n ==> KOk(at[q], |k|)) && (forall q :: n <= q < |at1| ==> KOk(at1[q], |k|))
    requires forall q :: q in T || q in F ==> at1[q].Jmp?
    ensures var at' := Valueless(at1, T + F);
      && Same(Code(m, k, at, T + F), Code(m, k, at', T + F), p0, n) && (p0 > 0 ==> !IsTest(at'[p0-1]))
      && (forall q :: p0 <= q < |at'| ==> KOk(at'[q], |k|))
      && (forall q :: q in T || q in F ==> at'[q].Jmp? && !YieldsValue(at', q))
      && at'[..p0] == at[..p0]
  {
    var at' := Valueless(at1, T + F);
    forall q | 0 <= q < n ensures at1[q] == at[q] { assert at1[..n][q] == at[..n][q]; }
    forall q | p0 <= q < |at'| ensures KOk(at'[q], |k|) { assert KOk(at1[q], |k|); }
  }

  // ---- Operands ----------------------------------------------------------------------------

  /** An expression without code of its own. */
  lemma LeafOk(x: St, m: Semantics, nact: nat, free: nat, kind: Kind, base: nat, a: Expr)
    requires kind.VNil? || kind.VTrue? || kind.VFalse? || kind.VK? || kind.VKNum? || kind.VLocal? || kind.VNonReloc?
    requires KindOk(x, m, nact, free, kind, {}, base) && NoTest(x.code) && nact <= base <= free && Linked(x.code, x.jpc, x.jl)
    requires forall s: Regs :: Fetch(Code(m, x.k, View(x), {}), kind, s) == Eval(m, a, s)
    ensures ExpOk(x, m, nact, free, ExpDesc(kind, NO_JUMP, NO_JUMP), {}, {}, Goal(|x.code|, base, a))
  {
    hide Linked, Denotes, Fetch, Eval;
    LinkedNone(x.code);
    NoTestHere(x);
    hide View;
    Leaf(m, x.k, View(x), kind, base, a);
  }

  lemma NoTestHere(x: St)
    requires NoTest(x.code)
    ensures NoTest(View(x))
  {
  }

  /** The same value in another form, perhaps with more constants. */
  lemma Rekinded(x: St, x': St, m: Semantics, nact: nat, free: nat, e: ExpDesc, T: set<nat>, F: set<nat>, g: Goal, kind': Kind)
    requires ExpOk(x, m, nact, free, e, T, F, g) && !e.kind.Passed? && !kind'.Passed?
    requires x' == x.(k := x'.k) && x.k <= x'.k && End(kind', |x.code|) == End(e.kind, |x.code|)
    requires KindOk(x', m, nact, free, kind', T + F, g.base)
    requires forall s: Regs :: Fetch(Code(m, x'.k, View(x), {}), kind', s) == Fetch(Code(m, x.k, View(x), {}), e.kind, s)
    ensures ExpOk(x', m, nact, free, ExpDesc(kind', e.t, e.f), T, F, g) && Grown(x, x', g.p0)
  {
    hide Linked, Denotes, Fetch, Here;
    Rekind(m, x.k, View(x), e.kind, T, F, g.p0, g.base, g.a, x'.k, kind');
  }

  /** Both operands are at hand: l in k1 and r in k2. */
  ghost predicate PairOk(x: St, m: Semantics, nact: nat, free: nat, k1: Kind, k2: Kind, p0: nat, base: nat, l: Expr, r: Expr) {
    && Linked(x.code, x.jpc, x.jl) && NoTest(x.code) && nact <= base <= free && p0 <= |x.code|
    && WaitsBelow(k1, free, |x.k|) && WaitsBelow(k2, free, |x.k|)
    && Denotes2(m, x.k, View(x), k1, k2, p0, base, l, r)
  }

  lemma Paired(x: St, x': St, m: Semantics, nact: nat, free: nat, free': nat, e1: ExpDesc, e2: ExpDesc, g: Goal, base1: nat, r: Expr)
    requires ExpOk(x, m, nact, free, e1, {}, {}, g) && WaitsBelow(e1.kind, base1, |x.k|)
    requires ExpOk(x', m, nact, free', e2, {}, {}, Goal(|x.code|, base1, r)) && WaitsBelow(e2.kind, free', |x'.k|)
    requires Grown(x, x', |x.code|) && g.base <= base1 && LocalsBelow(r, g.base)
    ensures PairOk(x', m, nact, free', e1.kind, e2.kind, g.p0, g.base, g.a, r) && Grown(x, x', g.p0)
  {
    hide Linked, Denotes, Denotes2, Here, LocalsBelow, KindOk;
    GrownSelf(x, g.p0);
    GrownTrans(x, x, x', g.p0, |x.code|);
    assert View(x)[..|x.code|] == View(x);
    PairUp(m, x.k, View(x), e1.kind, g.p0, g.base, g.a, x'.k, View(x'), e2.kind, base1, r);
  }

  lemma PairedMore(x: St, x': St, m: Semantics, nact: nat, free: nat, free': nat, k1: Kind, k2: Kind, p0: nat, base: nat, l: Expr, r: Expr,
                   e1: ExpDesc, base1: nat)
    requires PairOk(x, m, nact, free, k1, k2, p0, base, l, r) && WaitsBelow(k2, base1, |x.k|) && base <= base1 && free <= free'
    requires ExpOk(x', m, nact, free', e1, {}, {}, Goal(|x.code|, base1, Held(x.k, k1))) && WaitsBelow(e1.kind, free', |x'.k|)
    requires Grown(x, x', |x.code|)
    ensures PairOk(x', m, nact, free', e1.kind, k2, p0, base, l, r)
  {
    hide Linked, Denotes, Denotes2, Here, KindOk;
    assert View(x)[..|x.code|] == View(x);
    PairMore(m, x.k, View(x), k1, k2, p0, base, l, r, x'.k, View(x'), e1.kind, base1);
  }

  /** The operator's instruction, or the comparison and its jump. */
  lemma PairEmitted(x: St, x': St, m: Semantics, nact: nat, free: nat, free': nat, k1: Kind, k2: Kind, p0: nat, base: nat, l: Expr, r: Expr,
                    tail: seq<Instr>, kind: Kind, a: Expr)
    requires PairOk(x, m, nact, free, k1, k2, p0, base, l, r) && !k1.VKNum? && !k2.VKNum? && base <= free'
    requires tail != [] && !IsTest(tail[|tail|-1]) && (forall i :: i in tail ==> KOk(i, |x.k|))
    requires x'.code == View(x) + tail && x'.jl == {} && x'.jpc == NO_JUMP && x'.k == x.k
    requires End(kind, |x'.code|) == |x.code| && !kind.Passed? && KindOk(x', m, nact, free', kind, {}, base)
    requires forall s: Regs, t: Regs :: Eval(m, l, s) == Some(Operand(x.k, k1, t)) && Eval(m, r, s) == Some(Operand(x.k, k2, t))
               ==> Fetch(Code(m, x.k, x'.code, {}), kind, t) == Eval(m, a, s)
    requires forall s: Regs :: Eval(m, l, s).None? || Eval(m, r, s).None? ==> Eval(m, a, s).None?
    ensures ExpOk(x', m, nact, free', ExpDesc(kind, NO_JUMP, NO_JUMP), {}, {}, Goal(p0, base, a)) && Grown(x, x', p0)
  {
    hide Linked, Denotes, Denotes2, Here, KindOk, Fetch, Eval, Operand, KOk;
    LinkedNone(x'.code);
    PlainView(x');
    var none: set<nat> := {};
    assert none + none == none && x'.code[|x'.code|-1] == tail[|tail|-1];
    NoneMore(x, x', p0) by { assert View(x')[..p0] == View(x)[..p0]; }
    EmitPair(m, x.k, View(x), k1, k2, p0, base, l, r, tail, kind, a);
  }

  lemma ArithEmitted(x: St, x': St, m: Semantics, nact: nat, free: nat, free': nat, k1: Kind, k2: Kind, p0: nat, base: nat, l: Expr, r: Expr,
                     op: ArithOp)
    requires PairOk(x, m, nact, free, k1, k2, p0, base, l, r) && (k1.VNonReloc? || k1.VK?) && (k2.VNonReloc? || k2.VK?) && base <= free'
    requires x' == Emit(x, ArithI(op, 0, RKOf(k1), RKOf(k2)))
    ensures ExpOk(x', m, nact, free', ExpDesc(VReloc(|x.code|), NO_JUMP, NO_JUMP), {}, {}, Goal(p0, base, ArithE(op, l, r))) && Grown(x, x', p0)
  {
    hide Linked, Denotes2, Here;
    PairEmitted(x, x', m, nact, free, free', k1, k2, p0, base, l, r, [ArithI(op, 0, RKOf(k1), RKOf(k2))], VReloc(|x.code|), ArithE(op, l, r));
  }

  /** codecomp: the comparison `cop` of the operands, swapped or not, jumps if it gives `cond`. */
  lemma CompEmitted(x: St, x': St, m: Semantics, nact: nat, free: nat, free': nat, k1: Kind, k2: Kind, p0: nat, base: nat, l: Expr, r: Expr,
                    op: RelOp)
    requires PairOk(x, m, nact, free, k1, k2, p0, base, l, r) && (k1.VNonReloc? || k1.VK?) && (k2.VNonReloc? || k2.VK?) && base <= free'
    requires x'.code == View(x) + [CompareOf(op, RKOf(k1), RKOf(k2)), Jmp(NO_JUMP)] && x'.jl == {} && x'.jpc == NO_JUMP && x'.k == x.k
    ensures ExpOk(x', m, nact, free', ExpDesc(VJmp(|x.code| + 1), NO_JUMP, NO_JUMP), {}, {}, Goal(p0, base, RelE(op, l, r))) && Grown(x, x', p0)
  {
    hide Linked, Denotes2, Here;
    PairEmitted(x, x', m, nact, free, free', k1, k2, p0, base, l, r, [CompareOf(op, RKOf(k1), RKOf(k2)), Jmp(NO_JUMP)],
                VJmp(|x.code| + 1), RelE(op, l, r));
  }

  function CompareOf(op: RelOp, o1: RK, o2: RK): Instr {
    match op
    case EqR => Compare(Eq, true, o1, o2)
    case NeR => Compare(Eq, false, o1, o2)
    case LtR => Compare(Lt, true, o1, o2)
    case LeR => Compare(Le, true, o1, o2)
    case GtR => Compare(Lt, true, o2, o1)
    case GeR => Compare(Le, true, o2, o1)
  }

  /** OP_UNM and OP_LEN, on a register. */
  lemma UnaryEmitted(x: St, x': St, m: Semantics, nact: nat, free: nat, free': nat, r: nat, g: Goal, op: UnaryOp)
    requires ExpOk(x, m, nact, free, ExpDesc(VNonReloc(r), NO_JUMP, NO_JUMP), {}, {}, g) && g.base <= free' && x' == Emit(x, UnaryI(op, 0, r))
    ensures ExpOk(x', m, nact, free', ExpDesc(VReloc(|x.code|), NO_JUMP, NO_JUMP), {}, {}, g.(a := UnaryE(op, g.a))) && Grown(x, x', g.p0)
  {
    hide Linked, Denotes, Here;
    LinkedNone(x'.code);
    EmitView(x, UnaryI(op, 0, r), g.p0);
    EmitOne(m, x.k, View(x), VNonReloc(r), g.p0, g.base, g.a, [UnaryI(op, 0, r)], VReloc(|x.code|), UnaryE(op, g.a));
  }

  /** constfolding. */
  lemma Folded(x: St, m: Semantics, nact: nat, free: nat, v: int, w: int, op: ArithOp, p0: nat, base: nat, l: Expr, r: Expr)
    requires PairOk(x, m, nact, free, VKNum(v), VKNum(w), p0, base, l, r) && !m.isNan(m.num(op, v, w))
    ensures ExpOk(x, m, nact, free, ExpDesc(VKNum(m.num(op, v, w)), NO_JUMP, NO_JUMP), {}, {}, Goal(p0, base, ArithE(op, l, r)))
  {
    hide Linked, Denotes, Denotes2, Here;
    LinkedNone(x.code);
    FoldPair(m, x.k, View(x), v, w, op, p0, base, l, r);
  }

  lemma FoldedNeg(x: St, m: Semantics, nact: nat, free: nat, v: int, g: Goal)
    requires ExpOk(x, m, nact, free, ExpDesc(VKNum(v), NO_JUMP, NO_JUMP), {}, {}, g) && !m.isNan(m.neg(v))
    ensures ExpOk(x, m, nact, free, ExpDesc(VKNum(m.neg(v)), NO_JUMP, NO_JUMP), {}, {}, g.(a := UnaryE(Unm, g.a)))
  {
    hide Linked, Denotes, Here;
    assert View(x) + [] == View(x);
    EmitOne(m, x.k, View(x), VKNum(v), g.p0, g.base, g.a, [], VKNum(m.neg(v)), UnaryE(Unm, g.a));
  }

  // ---- and, or -----------------------------------------------------------------------------

  /** luaK_posfix for `and` (b) and `or`: the exits L of the left operand join a list of the right one. */
  lemma Branched(x: St, y: St, z: St, m: Semantics, nact: nat, free: nat, free': nat, b: bool, L: set<nat>, e1: ExpDesc, e2: ExpDesc,
                 T: set<nat>, F: set<nat>, p0: nat, base: nat, l: Expr, r: Expr, h: int)
    requires ExpOk(x, m, nact, free, e1, if b then {} else L, if b then L else {}, Goal(p0, base, l)) && e1.kind == Passed(b)
    requires ExpOk(y, m, nact, free', e2, T, F, Goal(|x.code|, base, r)) && Grown(x, y, |x.code|) && LocalsBelow(r, base)
    requires e2.kind.VNonReloc? ==> e2.kind.reg < nact
    requires z == y.(code := z.code) && Rethreaded(y.code, z.code, if b then F else T) && Linked(z.code, h, (if b then F else T) + L)
    ensures ExpOk(z, m, nact, free', ExpDesc(e2.kind, if b then e2.t else h, if b then h else e2.f),
                  if b then T else T + L, if b then F + L else F, Goal(p0, base, if b then And(l, r) else Or(l, r)))
    ensures Grown(x, z, p0)
  {
    hide Linked, Denotes, Rethreaded, View, Means, LocalsBelow;
    var T', F' := if b then T else T + L, if b then F + L else F;
    var g := Goal(p0, base, if b then And(l, r) else Or(l, r));
    RethreadedLinked(y.code, z.code, if b then F else T, if b then e2.t else e2.f, if b then T else F);
    RethreadedLinked(y.code, z.code, if b then F else T, y.jpc, y.jl);
    LinkedBound(y.code, y.jpc, y.jl);
    NoTestSame(y.code, z.code, if b then F else T);
    ListsApart(x, y, b, L);
    BranchedMeans(x, y, m, b, L, e2.kind, T, F, p0, base, l, r);
    JoinedMeans(y, z, m, e2.kind, T', F', g, if b then F else T);
    KindSame(y, z, m, nact, free', e2.kind, T + F, L, base, if b then F else T);
    GrownTrans(x, x, y, p0, |x.code|) by { GrownSelf(x, p0); }
    GrownTrans(x, y, z, p0, p0);
  }

  lemma ListsApart(x: St, y: St, b: bool, L: set<nat>)
    requires Grown(x, y, |x.code|) && L !! x.jl && forall q :: q in L ==> q < |x.code|
    ensures L !! y.jl
  {
  }

  lemma KindSame(y: St, z: St, m: Semantics, nact: nat, free: nat, kind: Kind, A: set<nat>, L: set<nat>, base: nat, R: set<nat>)
    requires KindOk(y, m, nact, free, kind, A, base) && z == y.(code := z.code) && Rethreaded(y.code, z.code, R)
    requires (forall q :: q in R ==> q < End(kind, |y.code|)) && (kind.VNonReloc? ==> kind.reg < nact)
    ensures KindOk(z, m, nact, free, kind, A + L, base)
  {
  }

  lemma BranchedMeans(x: St, y: St, m: Semantics, b: bool, L: set<nat>, kind: Kind, T: set<nat>, F: set<nat>, p0: nat, base: nat, l: Expr, r: Expr)
    requires Means(x, m, Passed(b), if b then {} else L, if b then L else {}, Goal(p0, base, l))
    requires Means(y, m, kind, T, F, Goal(|x.code|, base, r)) && Grown(x, y, |x.code|) && LocalsBelow(r, base)
    requires (forall q :: q in L ==> p0 <= q < |x.code|) && (forall q :: q in T || q in F ==> |x.code| <= q)
    ensures Means(y, m, kind, if b then T else T + L, if b then F + L else F, Goal(p0, base, if b then And(l, r) else Or(l, r)))
  {
    hide Denotes, Here, LocalsBelow;
    CodeOk(m, x.k, View(x), Passed(b), if b then {} else L, if b then L else {}, p0, base, l);
    BranchSame(m, x.k, View(x), y.k, View(y), L, T + F + L, p0);
    hide Same;
    Branch(m, b, x.k, View(x), L, p0, base, l, y.k, View(y), kind, T, F, r);
  }

  lemma BranchSame(m: Semantics, k1: seq<Val>, at1: seq<Instr>, k2: seq<Val>, at2: seq<Instr>, L: set<nat>, open: set<nat>, p0: nat)
    requires p0 <= |at1| <= |at2| && at2[..|at1|] == at1 && k1 <= k2 && (p0 > 0 ==> !IsTest(at1[p0-1]))
    requires forall q :: p0 <= q < |at1| ==> KOk(at1[q], |k1|)
    requires forall q :: p0 <= q < |at1| ==> (q in L <==> q in open)
    requires forall q :: q in L ==> q < |at1|
    ensures Same(Code(m, k1, at1, L), Code(m, k2, at2, open), p0, |at1|)
    ensures p0 > 0 ==> !IsTest(at2[p0-1])
    ensures forall q :: p0 <= q < |at1| ==> KOk(at2[q], |k2|)
    ensures forall j :: j in L ==> YieldsValue(at1, j) == YieldsValue(at2, j) && (YieldsValue(at1, j) ==> at2[j-1].b == at1[j-1].b)
  {
    forall q | 0 <= q < |at1| ensures at2[q] == at1[q] { assert at2[..|at1|][q] == at2[q]; }
    forall q | p0 <= q < |at1| ensures KOk(at2[q], |k2|) { assert KOk(at1[q], |k1|); }
  }
}
