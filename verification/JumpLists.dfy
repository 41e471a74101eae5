/** The lists of pending jumps that lcode.c threads through the sBx fields of the jumps themselves. */
module JumpLists {
  import opened LuaVm

  /** NO_JUMP: an empty list, and as an offset the end of a list. */
  const NO_JUMP := -1

  function GetJump(code: seq<Instr>, pc: nat): int
    requires pc < |code| && code[pc].Jmp?
  {
    if code[pc].sbx == NO_JUMP then NO_JUMP else pc + 1 + code[pc].sbx
  }

  function Elems(l: seq<nat>): set<nat> { set x | x in l }

  /** The list that starts at `head` runs through the jumps l, without repetition, and ends. */
  ghost predicate Chain(code: seq<Instr>, head: int, l: seq<nat>)
    decreases |l|
  {
    if l == [] then head == NO_JUMP
    else head == l[0] && l[0] < |code| && code[l[0]].Jmp? && l[0] !in l[1..] && Chain(code, GetJump(code, l[0]), l[1..])
  }

  /** The list that starts at `head` is finite and has exactly the jumps of L. */
  ghost predicate Linked(code: seq<Instr>, head: int, L: set<nat>) {
    exists l :: Chain(code, head, l) && Elems(l) == L
  }

  lemma ChainElems(l: seq<nat>)
    requires l != []
    ensures Elems(l) == {l[0]} + Elems(l[1..])
  {
    assert l == [l[0]] + l[1..];
  }

  lemma {:induction false} ChainBound(code: seq<Instr>, head: int, l: seq<nat>)
    requires Chain(code, head, l)
    ensures forall q :: q in Elems(l) ==> q < |code| && code[q].Jmp?
    decreases |l|
  {
    if l != [] {
      ChainElems(l);
      ChainBound(code, GetJump(code, l[0]), l[1..]);
    }
  }

  lemma LinkedBound(code: seq<Instr>, head: int, L: set<nat>)
    requires Linked(code, head, L)
    ensures forall q :: q in L ==> q < |code| && code[q].Jmp?
    ensures head == NO_JUMP <==> L == {}
    ensures head != NO_JUMP ==> head >= 0 && head as nat in L
  {
    var l :| Chain(code, head, l) && Elems(l) == L;
    ChainBound(code, head, l);
    if l != [] { ChainElems(l); }
  }

  lemma {:induction false} ChainFrame(code: seq<Instr>, code': seq<Instr>, head: int, l: seq<nat>)
    requires Chain(code, head, l) && forall q :: q in Elems(l) && q < |code| ==> q < |code'| && code'[q] == code[q]
    ensures Chain(code', head, l)
    decreases |l|
  {
    if l != [] {
      ChainElems(l);
      ChainFrame(code, code', GetJump(code, l[0]), l[1..]);
    }
  }

  /** A list stays as it is when its own jumps do. */
  lemma LinkedFrame(code: seq<Instr>, code': seq<Instr>, head: int, L: set<nat>)
    requires Linked(code, head, L) && forall q :: q in L && q < |code| ==> q < |code'| && code'[q] == code[q]
    ensures Linked(code', head, L)
  {
    var l :| Chain(code, head, l) && Elems(l) == L;
    ChainFrame(code, code', head, l);
  }

  lemma LinkedNone(code: seq<Instr>)
    ensures Linked(code, NO_JUMP, {})
  {
    var none: seq<nat> := [];
    assert Elems(none) == {};
    assert Chain(code, NO_JUMP, none);
  }

  /** A jump whose offset is NO_JUMP is a list on its own. */
  lemma LinkedOne(code: seq<Instr>, pc: nat)
    requires pc < |code| && code[pc] == Jmp(NO_JUMP)
    ensures Linked(code, pc, {pc})
  {
    var none: seq<nat> := [];
    assert Chain(code, GetJump(code, pc), none);
    assert [pc][1..] == none;
    assert Chain(code, pc, [pc]) && Elems([pc]) == {pc};
  }

  /** Lists without common jumps have the same head only if both are empty: hasjumps of lcode.c. */
  lemma SameHead(code: seq<Instr>, h: int, A: set<nat>, h': int, B: set<nat>)
    requires Linked(code, h, A) && Linked(code, h', B) && A !! B
    ensures h == h' <==> A == {} && B == {}
  {
    LinkedBound(code, h, A);
    LinkedBound(code, h', B);
  }

  /** Only the threading of the jumps in A differs. */
  ghost predicate Rethreaded(code: seq<Instr>, code': seq<Instr>, A: set<nat>) {
    && |code'| == |code|
    && forall q :: 0 <= q < |code| ==> code'[q] == code[q] || (q in A && code[q].Jmp? && code'[q].Jmp?)
  }

  lemma RethreadedLinked(code: seq<Instr>, code': seq<Instr>, A: set<nat>, head: int, L: set<nat>)
    requires Rethreaded(code, code', A) && Linked(code, head, L) && L !! A
    ensures Linked(code', head, L)
  {
    LinkedFrame(code, code', head, L);
  }

  lemma ElemsBoth(l: seq<nat>, l2: seq<nat>)
    ensures Elems(l + l2) == Elems(l) + Elems(l2)
  {
  }

  lemma ElemIn(l: seq<nat>, i: nat)
    requires i < |l|
    ensures l[i] in Elems(l)
  {
  }

  /** luaK_concat: the last jump of the first list leads to the second list. */
  lemma {:induction false} ChainAppend(code: seq<Instr>, code': seq<Instr>, h: int, l: seq<nat>, h2: int, l2: seq<nat>)
    requires Chain(code, h, l) && Chain(code, h2, l2) && l != [] && l2 != [] && Elems(l) !! Elems(l2)
    requires |code'| == |code| && l[|l|-1] < |code| && code'[l[|l|-1]] == Jmp(h2 - (l[|l|-1] + 1))
    requires forall q :: 0 <= q < |code| && q != l[|l|-1] ==> code'[q] == code[q]
    ensures Chain(code', h, l + l2) && Elems(l + l2) == Elems(l) + Elems(l2)
    decreases |l|
  {
    ChainElems(l);
    ElemsBoth(l, l2);
    hide Elems;
    assert (l + l2)[1..] == l[1..] + l2;
    var last := l[|l|-1];
    ElemIn(l, |l| - 1);
    ElemIn(l2, 0);
    ElemIn(l, 0);
    assert h2 == l2[0];
    if |l| == 1 {
      ChainFrame(code, code', h2, l2);
      assert l + l2 == [l[0]] + l2;
      assert GetJump(code', l[0]) == h2;
    } else {
      assert l[1..][|l[1..]|-1] == last;
      ChainAppend(code, code', GetJump(code, l[0]), l[1..], h2, l2);
      assert code'[l[0]] == code[l[0]];
    }
  }

  // ---- Patching ----------------------------------------------------------------------------

  lemma PatchedNone(code: seq<Instr>, vt: int, reg: Option<nat>, dt: nat -> int)
    ensures Patched(code, {}, vt, reg, dt) == code
  {
  }

  /** One turn of patchlistaux: the jump at p gets its target. */
  lemma PatchOne(code: seq<Instr>, D: set<nat>, vt: int, reg: Option<nat>, dt: nat -> int, p: nat, cur: seq<Instr>)
    requires cur == Patched(code, D, vt, reg, dt) && p !in D && p < |code| && code[p].Jmp?
    requires forall q :: q in D ==> q < |code| && code[q].Jmp?
    ensures Patched(code, D + {p}, vt, reg, dt) ==
      if YieldsValue(cur, p) then cur[p-1 := PatchTest(cur[p-1], reg)][p := Jmp(vt - (p + 1))] else cur[p := Jmp(dt(p) - (p + 1))]
    ensures cur[p] == code[p]
  {
    var r := if YieldsValue(cur, p) then cur[p-1 := PatchTest(cur[p-1], reg)][p := Jmp(vt - (p + 1))] else cur[p := Jmp(dt(p) - (p + 1))];
    var r' := Patched(code, D + {p}, vt, reg, dt);
    assert YieldsValue(cur, p) == YieldsValue(code, p);
    forall q | 0 <= q < |code| ensures r[q] == r'[q] {
      assert cur[q] == PatchCell(code, D, vt, reg, dt, q);
    }
  }

  /** patchlistaux changes no jump of another list. */
  lemma PatchedLinked(code: seq<Instr>, L: set<nat>, vt: int, reg: Option<nat>, dt: nat -> int, head: int, M: set<nat>)
    requires Linked(code, head, M) && M !! L
    ensures Linked(Patched(code, L, vt, reg, dt), head, M)
  {
    LinkedBound(code, head, M);
    LinkedFrame(code, Patched(code, L, vt, reg, dt), head, M);
  }

  lemma HereLinked(code: seq<Instr>, L: set<nat>, head: int, M: set<nat>)
    requires Linked(code, head, M) && M !! L
    ensures Linked(Here(code, L), head, M)
  {
    PatchedLinked(code, L, |code|, None, To(|code|), head, M);
  }

  lemma HereNone(code: seq<Instr>)
    ensures Here(code, {}) == code
  {
  }

  /** Jumps that wait for the same place may be resolved one list after the other. */
  lemma HereHere(code: seq<Instr>, code': seq<Instr>, J: set<nat>, L: set<nat>)
    requires Rethreaded(code, code', J + L) && J !! L
    requires forall q :: q in J || q in L ==> q < |code| && code[q].Jmp?
    ensures Here(code', J + L) == Here(Here(code, J), L)
  {
    var v := Here(code, J);
    var w := Here(v, L);
    var u := Here(code', J + L);
    forall q | 0 <= q < |code| ensures u[q] == w[q] {
      assert v[q] == PatchCell(code, J, |code|, None, To(|code|), q);
      assert q > 0 ==> v[q-1] == PatchCell(code, J, |code|, None, To(|code|), q - 1);
    }
  }

  /** removevalues: the tests before the jumps of L no longer copy a value. */
  function Valueless(code: seq<Instr>, L: set<nat>): (r: seq<Instr>)
    ensures |r| == |code|
    ensures forall q :: 0 <= q < |code| ==> r[q] == if q + 1 in L then PatchTest(code[q], None) else code[q]
  {
    seq(|code|, (q: nat) requires q < |code| => if q + 1 in L then PatchTest(code[q], None) else code[q])
  }

  lemma ValuelessLinked(code: seq<Instr>, L: set<nat>, head: int, M: set<nat>)
    requires Linked(code, head, M)
    ensures Linked(Valueless(code, L), head, M)
  {
    LinkedBound(code, head, M);
    LinkedFrame(code, Valueless(code, L), head, M);
  }

  lemma ValuelessOne(code: seq<Instr>, D: set<nat>, p: nat)
    requires p < |code| && code[p].Jmp?
    ensures var cur := Valueless(code, D);
      Valueless(code, D + {p}) == if YieldsValue(cur, p) then cur[p-1 := PatchTest(cur[p-1], None)] else cur
  {
    var cur := Valueless(code, D);
    var r := if YieldsValue(cur, p) then cur[p-1 := PatchTest(cur[p-1], None)] else cur;
    forall q | 0 <= q < |code| ensures r[q] == Valueless(code, D + {p})[q] { }
    assert r == Valueless(code, D + {p});
  }
}
