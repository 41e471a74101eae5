/** What the bare jump of luaK_goiftrue and luaK_goiffalse means when jumps wait for its place. */
module BareJump {
  import opened LuaVm
  import opened ExprSem

  /** No run takes one of the jumps J, which wait for the end of the code, with another value than
      the constant that goes on there: false for `and` (b), true for `or`. */
  ghost predicate Harmless(c: Code, J: set<nat>, p0: nat, b: bool) {
    forall s: Regs :: HarmlessRun(c, J, b, Exec(c, p0, |c.at|, s))
  }

  ghost predicate HarmlessRun(c: Code, J: set<nat>, b: bool, o: Outcome) {
    o.Exit? && o.j in J ==> ExitValue(c, o.j, o.s, !b) == Bool(!b)
  }

  function Constant(b: bool): Kind { if b then VFalse else VTrue }

  /** Code that goes on with a constant, jumps J waiting, and then a bare jump that takes them over: it
      leaves with the right value, through the false (b) or the true list, exactly if J is harmless. */
  lemma Exact(m: Semantics, k: seq<Val>, at: seq<Instr>, J: set<nat>, b: bool, T: set<nat>, F: set<nat>, p0: nat, base: nat, a: Expr, link: int)
    requires Denotes(m, k, Here(at, J), Constant(b), T, F, p0, base, a) && J !! T + F
    requires forall q :: q in J ==> p0 <= q < |at| && at[q].Jmp?
    requires |at| > 0 ==> !IsTest(at[|at|-1])
    requires forall q :: q in T || q in F ==> q < |at|
    ensures Denotes(m, k, at + [Jmp(link)], Passed(b), if b then T else T + J + {|at|}, if b then F + J + {|at|} else F, p0, base, a) <==>
      Harmless(Code(m, k, at, T + F + J), J, p0, b)
  {
    hide Exec, Good, Same, Resolved, HarmlessRun, StepAt, KOk, Eval, YieldsValue, PatchTest;
    var e, at' := |at|, at + [Jmp(link)];
    var T', F' := if b then T else T + J + {e}, if b then F + J + {e} else F;
    var c, c0, d := Code(m, k, at, T + F + J), Code(m, k, Here(at, J), T + F), Code(m, k, at', T' + F');
    assert T' + F' == T + F + J + {e};
    CellsOf(m, k, at, J, T + F, p0);
    assert at'[..e] == at[..e];
    TestSame(m, k, at, at', T + F + J, T' + F', p0, e);
    forall s: Regs
      ensures Good(Exec(d, p0, e + 1, s), d, Passed(b), T', F', base, s, Eval(m, a, s)) <==> HarmlessRun(c, J, b, Exec(c, p0, e, s))
    {
      RunExact(c, c0, d, J, b, T, F, p0, e, base, s, Eval(m, a, s));
    }
    forall q | (q in T' || q in F') && p0 <= q < |at'| ensures at'[q].Jmp? {
      if q < e && q !in J { assert Here(at, J)[q].Jmp?; }
    }
    JmpKOk(Jmp(link), |k|);
    assert forall q :: p0 <= q < |at'| ==> KOk(at'[q], |k|);
  }

  /** The code before the jumps are resolved, and after. */
  lemma CellsOf(m: Semantics, k: seq<Val>, at: seq<Instr>, J: set<nat>, open: set<nat>, p0: nat)
    requires p0 <= |at| && J !! open
    requires forall q :: q in J ==> p0 <= q < |at| && at[q].Jmp?
    requires forall q :: p0 <= q < |at| ==> KOk(Here(at, J)[q], |k|)
    requires p0 > 0 ==> !IsTest(Here(at, J)[p0-1])
    ensures Resolved(Code(m, k, at, open + J), Code(m, k, Here(at, J), open), J, |at|, None, To(|at|), p0, |at|)
    ensures forall q :: p0 <= q < |at| ==> KOk(at[q], |k|)
    ensures p0 > 0 ==> !IsTest(at[p0-1])
    ensures forall q :: 0 <= q < |at| && Here(at, J)[q].Jmp? ==> at[q].Jmp?
  {
    forall q | p0 <= q < |at| ensures KOk(at[q], |k|) { assert KOk(Here(at, J)[q], |k|); }
  }

  lemma RunExact(c: Code, c0: Code, d: Code, J: set<nat>, b: bool, T: set<nat>, F: set<nat>, p0: nat, e: nat, base: nat, s: Regs, v: Option<Val>)
    requires e == |c.at| && Resolved(c, c0, J, e, None, To(e), p0, e) && c0.at == Here(c.at, J)
    requires Same(c, d, p0, e) && |d.at| == e + 1 && d.at == c.at + [d.at[e]] && d.at[e].Jmp? && (e > 0 ==> !IsTest(c.at[e-1]))
    requires c.open == T + F + J && c0.open == T + F && d.open == T + F + J + {e} && T !! F && J !! T + F
    requires (forall q :: q in T || q in F ==> q < e) && forall q :: q in J ==> q < e && c.at[q].Jmp?
    requires Good(Exec(c0, p0, e, s), c0, Constant(b), T, F, base, s, v)
    ensures Good(Exec(d, p0, e + 1, s), d, Passed(b), if b then T else T + J + {e}, if b then F + J + {e} else F, base, s, v) <==>
      HarmlessRun(c, J, b, Exec(c, p0, e, s))
  {
    hide Exec, StepAt, Same, Resolved;
    var o := Exec(c, p0, e, s);
    Resume(c, c0, J, e, None, To(e), p0, p0, e, e, s);
    if o.Stuck? { StuckToo(c, c0, J, p0, p0, e, s); }
    NotStuck(Exec(c0, p0, e, s), c0, Constant(b), T, F, base, s, v);
    Onward(c, d, p0, e, e + 1, s);
    ExitIsOpen(c, p0, e, s);
    match o
    case Fall(t) =>
      JumpStep(d, e, t);
      AtEnd(c0, e, t);
    case Exit(j, t) =>
      SameValue(c.at, J, d.at, j);
      if j in J {
        AtEnd(c0, e, t);
      }
    case _ =>
  }

  lemma AtEnd(c: Code, e: nat, t: Regs)
    requires e <= |c.at|
    ensures Exec(c, e, e, t) == Fall(t)
  {
  }

  /** Which jumps yield a value, before and after those of J have been resolved. */
  lemma SameValue(at: seq<Instr>, J: set<nat>, at': seq<Instr>, j: nat)
    requires at <= at' && j < |at| && forall q :: q in J ==> q < |at| && at[q].Jmp?
    ensures YieldsValue(at', j) == YieldsValue(at, j) && (YieldsValue(at, j) ==> at'[j-1].b == at[j-1].b)
    ensures if j in J then !YieldsValue(Here(at, J), j) && Here(at, J)[j] == Jmp(|at| - (j + 1))
            else YieldsValue(Here(at, J), j) == YieldsValue(at, j) && (YieldsValue(at, j) ==> Here(at, J)[j-1].b == at[j-1].b)
  {
    if j > 0 { assert at'[j-1] == at[j-1]; }
  }

  /** Giving jumps their targets behind the end makes no run stuck that was not, and frees none. */
  lemma {:induction false} StuckToo(c: Code, d: Code, J: set<nat>, p0: nat, pc: nat, e: nat, s: Regs)
    requires Resolved(c, d, J, e, None, To(e), p0, e) && e == |c.at| && d.at == Here(c.at, J) && p0 <= pc
    requires Exec(c, pc, e, s).Stuck?
    ensures Exec(d, pc, e, s).Stuck?
    decreases e - pc
  {
    if pc < e {
      StepResume(c, d, J, e, None, To(e), p0, pc, e, e, s);
      StuckStep(c, d, J, p0, pc, e, s);
      hide StepAt, Resolved;
      var r := StepAt(c, pc, e, s);
      if r.Next? { StuckToo(c, d, J, p0, r.pc, e, r.s); }
    }
  }

  lemma StuckStep(c: Code, d: Code, J: set<nat>, p0: nat, pc: nat, e: nat, s: Regs)
    requires Resolved(c, d, J, e, None, To(e), p0, e) && e == |c.at| == |d.at| && p0 <= pc < e
    ensures StepAt(c, pc, e, s) == Halt(Stuck) ==> StepAt(d, pc, e, s) == Halt(Stuck)
  {
    hide SetNils, Arith, Unary, Get;
    assert CellOk(c, d, J, e, None, To(e), pc) && KOk(c.at[pc], |c.k|);
    if pc + 1 < e { assert CellOk(c, d, J, e, None, To(e), pc + 1); }
    if pc > p0 { assert CellOk(c, d, J, e, None, To(e), pc - 1); }
  }

  /** Jumps that yield no value are harmless. */
  lemma NoValue(c: Code, J: set<nat>, p0: nat, b: bool)
    requires forall q :: q in J ==> !YieldsValue(c.at, q)
    ensures Harmless(c, J, p0, b)
  {
    hide Exec;
  }

  /** A TESTSET on which the code begins and whose jump waits is not: some registers take it with
      another value than the constant. */
  lemma WaitingTestSet(c: Code, J: set<nat>, p0: nat, b: bool)
    requires p0 + 1 < |c.at| && c.at[p0].TestSet? && c.at[p0+1].Jmp? && p0 + 1 in J && p0 + 1 in c.open
    ensures !Harmless(c, J, p0, b)
  {
    var s: Regs := map[c.at[p0].b := if c.at[p0].c then Num(1) else Nil];
    assert StepAt(c, p0, |c.at|, s) == Halt(Exit(p0 + 1, s));
    assert Exec(c, p0, |c.at|, s) == Exit(p0 + 1, s);
    assert !HarmlessRun(c, J, b, Exec(c, p0, |c.at|, s));
  }

  /** Where only the jump of the first test waits, the code behind the bare jump is right exactly if
      that test is no TESTSET, as it is for a local: that of a comparison yields no value. */
  lemma FirstTestDecides(m: Semantics, k: seq<Val>, at: seq<Instr>, b: bool, T: set<nat>, F: set<nat>, p0: nat, base: nat, a: Expr, link: int)
    requires p0 + 1 < |at| && IsTest(at[p0]) && at[p0+1].Jmp? && !IsTest(at[|at|-1])
    requires Denotes(m, k, Here(at, {p0 + 1}), Constant(b), T, F, p0, base, a) && p0 + 1 !in T + F
    requires forall q :: q in T || q in F ==> q < |at|
    ensures var e := |at|; Denotes(m, k, at + [Jmp(link)], Passed(b), if b then T else T + {p0 + 1} + {e}, if b then F + {p0 + 1} + {e} else F, p0, base, a) <==>
      !at[p0].TestSet?
  {
    hide Denotes, Harmless;
    Exact(m, k, at, {p0 + 1}, b, T, F, p0, base, a, link);
    var c := Code(m, k, at, T + F + {p0 + 1});
    if at[p0].TestSet? { WaitingTestSet(c, {p0 + 1}, p0, b); } else { NoValue(c, {p0 + 1}, p0, b); }
  }
}
