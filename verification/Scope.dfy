/** How lparser.c resolves names: to active locals, upvalues of enclosing functions or globals. */
module Scope {

  type Name = string

  datatype Option<+T> = None | Some(value: T)

  const MAXUPVALUES: nat := 60

  datatype Kind = VLocal | VUpval

  /** upvaldesc, with the name that the prototype keeps beside it: where a closure finds the upvalue,
      in a register or among the upvalues of the enclosing function. */
  datatype Desc = Desc(kind: Kind, info: nat, name: Name)

  /** BlockCnt: how many locals were active at its beginning, and whether one of its own is used as
      an upvalue. */
  datatype Block = Block(nactvar: nat, upval: bool)

  /** FuncState: the names of the active locals by register, the upvalues, and the blocks that are
      open, innermost last. */
  datatype Fs = Fs(actvar: seq<Name>, upvalues: seq<Desc>, blocks: seq<Block>)

  /** What singlevar finds. `TooMany` is the error of luaY_checklimit. */
  datatype Var = Global | Local(reg: nat) | Upvalue(idx: nat) | TooMany

  // ---- The language's rule -----------------------------------------------------------------

  /** The latest declaration of a name among active locals, or -1. */
  function Latest(actvar: seq<Name>, n: Name): (r: int)
    ensures -1 <= r < |actvar|
    ensures r >= 0 ==> actvar[r] == n
    ensures forall i :: r < i < |actvar| ==> actvar[i] != n
  {
    if actvar == [] then -1 else if actvar[|actvar|-1] == n then |actvar| - 1 else Latest(actvar[..|actvar|-1], n)
  }

  /** The variable a name stands for in the function at `level`: function and register of the latest
      declaration in the nearest enclosing function that has one; None for a global. */
  function Resolve(fs: seq<Fs>, level: int, n: Name): (r: Option<(nat, nat)>)
    requires -1 <= level < |fs|
    ensures r.Some? ==> r.value.0 <= level && r.value.1 < |fs[r.value.0].actvar| && fs[r.value.0].actvar[r.value.1] == n
    ensures r.None? <==> forall l :: 0 <= l <= level ==> n !in fs[l].actvar
    decreases level + 1
  {
    if level < 0 then None
    else if Latest(fs[level].actvar, n) >= 0 then Some((level, Latest(fs[level].actvar, n)))
    else Resolve(fs, level - 1, n)
  }

  /** It is declared in the nearest function around that declares the name, and the last of its
      declarations there. */
  lemma {:induction false} ResolveMeaning(fs: seq<Fs>, level: int, n: Name, l: nat, i: nat)
    requires -1 <= level < |fs| && l <= level && i < |fs[l].actvar|
    ensures Resolve(fs, level, n) == Some((l, i)) <==>
      && fs[l].actvar[i] == n && (forall j :: i < j < |fs[l].actvar| ==> fs[l].actvar[j] != n)
      && forall m :: l < m <= level ==> n !in fs[m].actvar
    decreases level + 1
  {
    if l < level { ResolveMeaning(fs, level - 1, n, l, i); }
  }

  /** The variable that upvalue u of the function at `level` stands for: the descriptors are followed
      up the chain of functions. */
  function Origin(fs: seq<Fs>, level: nat, u: nat): Option<(nat, nat)>
    requires level < |fs|
    decreases level
  {
    if level == 0 || u >= |fs[level].upvalues| then None else
    var d := fs[level].upvalues[u];
    if d.kind == VLocal then Some((level - 1, d.info)) else Origin(fs, level - 1, d.info)
  }

  /** The innermost open block that began with at most `reg` active locals: the one that owns the
      register; -1 if the function itself does. */
  function Owner(blocks: seq<Block>, reg: nat): (r: int)
    ensures -1 <= r < |blocks|
    ensures r >= 0 ==> blocks[r].nactvar <= reg
    ensures forall i :: r < i < |blocks| ==> blocks[i].nactvar > reg
  {
    if blocks == [] then -1 else if blocks[|blocks|-1].nactvar <= reg then |blocks| - 1 else Owner(blocks[..|blocks|-1], reg)
  }

  function Marked(blocks: seq<Block>, reg: nat): (r: seq<Block>)
    ensures |r| == |blocks| && forall i :: 0 <= i < |blocks| ==> r[i].nactvar == blocks[i].nactvar
  {
    var o := Owner(blocks, reg);
    if o < 0 then blocks else blocks[o := blocks[o].(upval := true)]
  }

  // ---- What the parser keeps true ----------------------------------------------------------

  /** The descriptors of a function fit the function around it. */
  predicate DescsOk(fs: seq<Fs>, l: nat)
    requires l < |fs|
  {
    && (l == 0 ==> fs[l].upvalues == [])
    && (l > 0 ==> forall d :: d in fs[l].upvalues ==>
          if d.kind == VLocal then d.info < |fs[l-1].actvar| && fs[l-1].actvar[d.info] == d.name
          else d.info < |fs[l-1].upvalues| && fs[l-1].upvalues[d.info].name == d.name)
  }

  /** No function records the same place twice. */
  predicate Distinct(ups: seq<Desc>) {
    forall i, j :: 0 <= i < j < |ups| ==> ups[i].kind != ups[j].kind || ups[i].info != ups[j].info
  }

  /** The block i owns a captured register. */
  ghost predicate OwnsCaptured(blocks: seq<Block>, captured: set<nat>, i: int) {
    exists r :: r in captured && Owner(blocks, r) == i
  }

  /** Blocks are nested, and exactly those are marked that own a captured register. */
  ghost predicate BlocksOk(f: Fs, captured: set<nat>) {
    && (forall i, j :: 0 <= i < j < |f.blocks| ==> f.blocks[i].nactvar <= f.blocks[j].nactvar)
    && (forall i :: 0 <= i < |f.blocks| ==> f.blocks[i].nactvar <= |f.actvar|)
    && (forall r :: r in captured ==> r < |f.actvar|)
    && (forall i :: 0 <= i < |f.blocks| ==> (f.blocks[i].upval <==> OwnsCaptured(f.blocks, captured, i)))
  }

  /** The locals that a function uses as upvalues are known to be captured in the one around it. */
  ghost predicate CapturesOk(ups: seq<Desc>, around: set<nat>) {
    forall d :: d in ups && d.kind == VLocal ==> d.info in around
  }

  ghost predicate LevelOk(fs: seq<Fs>, captured: seq<set<nat>>, l: nat)
    requires l < |fs| == |captured|
  {
    && DescsOk(fs, l) && Distinct(fs[l].upvalues) && BlocksOk(fs[l], captured[l])
    && (l > 0 ==> CapturesOk(fs[l].upvalues, captured[l-1]))
  }

  ghost predicate StackOk(fs: seq<Fs>, captured: seq<set<nat>>) {
    |captured| == |fs| && forall l :: 0 <= l < |fs| ==> LevelOk(fs, captured, l)
  }

  /** From fs to fs' upvalues have been added up to `level`, and blocks marked below it. */
  predicate Extended(fs: seq<Fs>, fs': seq<Fs>, level: int) {
    && |fs'| == |fs|
    && (forall l :: 0 <= l < |fs| ==> fs'[l].actvar == fs[l].actvar && fs[l].upvalues <= fs'[l].upvalues && |fs'[l].blocks| == |fs[l].blocks|)
    && (forall l :: 0 <= l < |fs| && l > level ==> fs'[l] == fs[l])
  }

  lemma ExtendedTrans(a: seq<Fs>, b: seq<Fs>, c: seq<Fs>, l: int, l': int)
    requires Extended(a, b, l) && Extended(b, c, l') && l <= l'
    ensures Extended(a, c, l')
  {
  }

  /** What is recorded already stays what it is. */
  lemma {:induction false} OriginStays(fs: seq<Fs>, fs': seq<Fs>, m: int, level: nat, u: nat)
    requires Extended(fs, fs', m) && level < |fs| && Origin(fs, level, u).Some?
    ensures Origin(fs', level, u) == Origin(fs, level, u)
    decreases level
  {
    assert fs'[level].upvalues[u] == fs[level].upvalues[u];
    if fs[level].upvalues[u].kind == VUpval { OriginStays(fs, fs', m, level - 1, fs[level].upvalues[u].info); }
  }

  class Parser {
    /** The functions that are being compiled, innermost last. */
    var fs: seq<Fs>
    /** The registers of each function that closures inside of it have captured. */
    ghost var captured: seq<set<nat>>

    ghost predicate Valid()
      reads this
    {
      StackOk(fs, captured)
    }

    constructor ()
      ensures Valid() && fs == [Fs([], [], [])]
    {
      fs, captured := [Fs([], [], [])], [{}];
    }

    // ---- Looking names up ------------------------------------------------------------------

    /** searchvar. */
    method SearchVar(level: nat, n: Name) returns (i: int)
      requires level < |fs|
      ensures i == Latest(fs[level].actvar, n)
    {
      i := |fs[level].actvar| - 1;
      while i >= 0
        invariant -1 <= i < |fs[level].actvar| && forall j :: i < j < |fs[level].actvar| ==> fs[level].actvar[j] != n
      {
        if n == fs[level].actvar[i] { return i; }
        i := i - 1;
      }
    }

    /** markupval: the block that owns the register is marked. */
    method MarkUpval(level: nat, reg: nat)
      requires Valid() && level < |fs| && reg < |fs[level].actvar|
      modifies this
      ensures Valid() && fs == old(fs)[level := old(fs)[level].(blocks := Marked(old(fs)[level].blocks, reg))]
      ensures captured == old(captured)[level := old(captured)[level] + {reg}]
    {
      var bl := |fs[level].blocks| - 1;
      while bl >= 0 && fs[level].blocks[bl].nactvar > reg
        invariant -1 <= bl < |fs[level].blocks| && forall i :: bl < i < |fs[level].blocks| ==> fs[level].blocks[i].nactvar > reg
      {
        bl := bl - 1;
      }
      hide StackOk, Owner;
      OwnerIs(fs[level].blocks, reg, bl);
      ghost var was, wasCaptured := fs, captured;
      if bl >= 0 {
        fs := fs[level := fs[level].(blocks := fs[level].blocks[bl := fs[level].blocks[bl].(upval := true)])];
      }
      captured := captured[level := captured[level] + {reg}];
      assert fs == was[level := was[level].(blocks := Marked(was[level].blocks, reg))];
      StillOk(was, fs, wasCaptured, captured, level, reg);
    }

    /** indexupvalue: the descriptor is found, or recorded. */
    method IndexUpvalue(level: nat, n: Name, kind: Kind, info: nat) returns (i: int)
      requires Valid() && 0 < level < |fs| && (kind == VLocal ==> info in captured[level-1])
      requires if kind == VLocal then info < |fs[level-1].actvar| && fs[level-1].actvar[info] == n
               else info < |fs[level-1].upvalues| && fs[level-1].upvalues[info].name == n
      modifies this`fs
      ensures Valid() && Extended(old(fs), fs, level) && (forall l :: 0 <= l < |fs| && l != level ==> fs[l] == old(fs)[l])
      ensures fs[level].blocks == old(fs)[level].blocks
      ensures i >= 0 ==> i < |fs[level].upvalues| && fs[level].upvalues[i] == Desc(kind, info, n)
      ensures i < 0 ==> |fs[level].upvalues| >= MAXUPVALUES && fs == old(fs)
    {
      hide StackOk;
      DescsAt(fs, captured, level);
      i := 0;
      while i < |fs[level].upvalues|
        invariant 0 <= i <= |fs[level].upvalues| && fs == old(fs)
        invariant forall j :: 0 <= j < i ==> fs[level].upvalues[j].kind != kind || fs[level].upvalues[j].info != info
      {
        var d := fs[level].upvalues[i];
        if d.kind == kind && d.info == info {
          assert d in fs[level].upvalues;
          return;
        }
        i := i + 1;
      }
      if |fs[level].upvalues| + 1 > MAXUPVALUES { return -1; }
      ghost var was := fs;
      fs := fs[level := fs[level].(upvalues := fs[level].upvalues + [Desc(kind, info, n)])];
      RecordedOk(was, captured, level, Desc(kind, info, n));
    }

    /** singlevaraux. */
    method SingleVarAux(level: int, n: Name, base: bool) returns (r: Var)
      requires Valid() && -1 <= level < |fs|
      modifies this
      ensures Valid() && Extended(old(fs), fs, level)
      ensures r.Global? ==> Resolve(old(fs), level, n).None? && fs == old(fs)
      ensures r.Local? ==> level >= 0 && Resolve(old(fs), level, n) == Some((level, r.reg)) && |captured| == |fs|
      ensures r.Local? && base ==> fs == old(fs)
      ensures r.Local? && !base ==> r.reg in captured[level] && fs == old(fs)[level := old(fs)[level].(blocks := Marked(old(fs)[level].blocks, r.reg))]
      ensures r.Upvalue? ==> level > 0 && Resolve(old(fs), level, n).Some? && Resolve(old(fs), level, n).value.0 < level
      ensures r.Upvalue? ==> r.idx < |fs[level].upvalues| && fs[level].upvalues[r.idx].name == n && Origin(fs, level, r.idx) == Resolve(old(fs), level, n)
      ensures r.Upvalue? ==> OnlyMarks(old(fs), fs, Resolve(old(fs), level, n).value)
      ensures r.TooMany? ==> Resolve(old(fs), level, n).Some? && exists l :: 0 < l <= level && |fs[l].upvalues| >= MAXUPVALUES
      decreases level + 1
    {
      hide StackOk, Owner, Marked, Extended, OnlyMarks, Origin;
      if level < 0 {
        ExtendedSelf(fs, level);
        return Global;
      }
      CapturedSize(fs, captured);
      var v := SearchVar(level, n);
      if v >= 0 {
        if !base { MarkUpval(level, v); }
        MarkingExtends(old(fs), level, v);
        CapturedSize(fs, captured);
        return Local(v);
      }
      r := SingleVarAux(level - 1, n, false);
      ghost var mid := fs;
      LaterLevel(old(fs), mid, level);
      if r.Global? || r.TooMany? { return; }
      FoundBelow(old(fs), mid, level, n, r);
      var i := IndexUpvalue(level, n, if r.Local? then VLocal else VUpval, if r.Local? then r.reg else r.idx);
      ExtendedTrans(old(fs), mid, fs, level - 1, level);
      if i < 0 { return TooMany; }
      Followed(old(fs), mid, fs, level, n, r, i);
      return Upvalue(i);
    }

    /** singlevar: the name is resolved as the language says, from the function being compiled. */
    method SingleVar(n: Name) returns (r: Var)
      requires Valid() && fs != []
      modifies this
      ensures Valid() && Extended(old(fs), fs, |fs| - 1)
      ensures r.Global? ==> forall l :: 0 <= l < |fs| ==> n !in old(fs)[l].actvar
      ensures !r.Global? ==> Resolve(old(fs), |fs| - 1, n).Some?
      ensures r.Local? ==> Resolve(old(fs), |fs| - 1, n) == Some((|fs| - 1, r.reg)) && fs == old(fs)
      ensures r.Upvalue? ==> Origin(fs, |fs| - 1, r.idx) == Resolve(old(fs), |fs| - 1, n) && OnlyMarks(old(fs), fs, Origin(fs, |fs| - 1, r.idx).value)
      ensures r.TooMany? ==> exists l :: 0 < l < |fs| && |fs[l].upvalues| >= 60
    {
      r := SingleVarAux(|fs| - 1, n, true);
    }

    // ---- Blocks and functions --------------------------------------------------------------

    /** open_func. */
    method OpenFunc()
      requires Valid()
      modifies this
      ensures Valid() && fs == old(fs) + [Fs([], [], [])] && captured == old(captured) + [{}]
    {
      hide BlocksOk;
      ghost var was, wasCaptured := fs, captured;
      fs := fs + [Fs([], [], [])];
      captured := captured + [{}];
      NewFuncOk();
      forall l | 0 <= l < |fs| ensures LevelOk(fs, captured, l) {
        if l < |was| { assert LevelOk(was, wasCaptured, l); }
      }
    }

    /** close_func and pushclosure: the descriptors become the instructions behind OP_CLOSURE. */
    method CloseFunc() returns (pseudo: seq<Desc>)
      requires Valid() && fs != []
      modifies this
      ensures Valid() && fs == old(fs)[..|old(fs)|-1] && pseudo == old(fs)[|old(fs)|-1].upvalues
      ensures |captured| == |fs| && forall l :: 0 <= l < |fs| ==> captured[l] == old(captured)[l]
    {
      hide BlocksOk;
      ghost var was, wasCaptured := fs, captured;
      pseudo := fs[|fs|-1].upvalues;
      fs := fs[..|fs|-1];
      captured := captured[..|fs|];
      forall l | 0 <= l < |fs| ensures LevelOk(fs, captured, l) { assert LevelOk(was, wasCaptured, l); }
    }

    /** adjustlocalvars: the locals that have been declared become active. */
    method AdjustLocalVars(names: seq<Name>)
      requires Valid() && fs != []
      modifies this
      ensures Valid() && captured == old(captured)
      ensures fs == old(fs)[|fs|-1 := old(fs)[|fs|-1].(actvar := old(fs)[|fs|-1].actvar + names)]
    {
      hide OwnsCaptured;
      ghost var was := fs;
      var last := |fs| - 1;
      fs := fs[last := fs[last].(actvar := fs[last].actvar + names)];
      forall l | 0 <= l < |fs| ensures LevelOk(fs, captured, l) { assert LevelOk(was, captured, l); }
    }

    /** enterblock. */
    method EnterBlock()
      requires Valid() && fs != []
      modifies this
      ensures Valid() && captured == old(captured)
      ensures fs == old(fs)[|fs|-1 := old(fs)[|fs|-1].(blocks := old(fs)[|fs|-1].blocks + [Block(|old(fs)[|fs|-1].actvar|, false)])]
    {
      hide BlocksOk;
      ghost var was := fs;
      var last := |fs| - 1;
      assert LevelOk(was, captured, last);
      EnteredOk(fs[last], captured[last]);
      fs := fs[last := fs[last].(blocks := fs[last].blocks + [Block(|fs[last].actvar|, false)])];
      forall l | 0 <= l < |fs| ensures LevelOk(fs, captured, l) { assert LevelOk(was, captured, l); }
    }

    /** leaveblock: the locals of the block go, and OP_CLOSE is emitted for them if and only if a
        closure has captured one of them. */
    method LeaveBlock() returns (close: bool)
      requires Valid() && fs != [] && fs[|fs|-1].blocks != []
      modifies this
      ensures Valid() && |fs| == |old(fs)| && (forall l :: 0 <= l < |fs| - 1 ==> fs[l] == old(fs)[l] && captured[l] == old(captured)[l])
      ensures var f := old(fs)[|fs|-1]; var bl := f.blocks[|f.blocks|-1];
        && bl.nactvar <= |f.actvar| && fs[|fs|-1] == Fs(f.actvar[..bl.nactvar], f.upvalues, f.blocks[..|f.blocks|-1])
        && (close <==> Outside(old(captured)[|fs|-1], bl.nactvar) != {})
        && captured[|fs|-1] == old(captured)[|fs|-1] - Outside(old(captured)[|fs|-1], bl.nactvar)
    {
      hide BlocksOk, OwnsCaptured;
      ghost var was, wasCaptured := fs, captured;
      var last := |fs| - 1;
      assert LevelOk(was, captured, last);
      var f := fs[last];
      var bl := f.blocks[|f.blocks|-1];
      ghost var kept := captured[last] - Outside(captured[last], bl.nactvar);
      LeftOk(f, captured[last], kept);
      close := bl.upval;
      fs := fs[last := Fs(f.actvar[..bl.nactvar], f.upvalues, f.blocks[..|f.blocks|-1])];
      captured := captured[last := kept];
      forall l | 0 <= l < |fs| ensures LevelOk(fs, captured, l) { assert LevelOk(was, wasCaptured, l); }
    }
  }

  lemma NewFuncOk()
    ensures BlocksOk(Fs([], [], []), {})
  {
  }

  lemma EnteredOk(f: Fs, captured: set<nat>)
    requires BlocksOk(f, captured)
    ensures BlocksOk(f.(blocks := f.blocks + [Block(|f.actvar|, false)]), captured)
  {
    hide Owner, OwnsCaptured;
    var b := f.blocks + [Block(|f.actvar|, false)];
    forall i | 0 <= i < |b| ensures b[i].upval <==> OwnsCaptured(b, captured, i) {
      EnteredOwns(f.blocks, |f.actvar|, captured, i);
    }
  }

  lemma EnteredOwns(blocks: seq<Block>, n: nat, captured: set<nat>, i: nat)
    requires forall r :: r in captured ==> r < n
    ensures var b := blocks + [Block(n, false)];
      OwnsCaptured(b, captured, i) <==> i < |blocks| && OwnsCaptured(blocks, captured, i)
  {
    var b := blocks + [Block(n, false)];
    forall r | r in captured ensures Owner(b, r) == Owner(blocks, r) { assert b[..|b|-1] == blocks; }
  }

  /** The captured registers from `from` on. */
  function Outside(captured: set<nat>, from: nat): set<nat> { set r | r in captured && r >= from }

  lemma LeftOk(f: Fs, captured: set<nat>, kept: set<nat>)
    requires BlocksOk(f, captured) && f.blocks != []
    requires kept == captured - Outside(captured, f.blocks[|f.blocks|-1].nactvar)
    ensures var bl := f.blocks[|f.blocks|-1];
      && bl.nactvar <= |f.actvar| && BlocksOk(Fs(f.actvar[..bl.nactvar], f.upvalues, f.blocks[..|f.blocks|-1]), kept)
      && (bl.upval <==> Outside(captured, bl.nactvar) != {})
  {
    hide OwnsCaptured;
    var last := |f.blocks| - 1;
    LeftLast(f.blocks, captured);
    forall i | 0 <= i < last ensures f.blocks[..last][i].upval <==> OwnsCaptured(f.blocks[..last], kept, i) {
      LeftBlock(f.blocks, captured, kept, i);
    }
  }

  lemma LeftLast(blocks: seq<Block>, captured: set<nat>)
    requires blocks != []
    ensures OwnsCaptured(blocks, captured, |blocks| - 1) <==> Outside(captured, blocks[|blocks|-1].nactvar) != {}
  {
    var last := |blocks| - 1;
    if OwnsCaptured(blocks, captured, last) {
      var r :| r in captured && Owner(blocks, r) == last;
      assert r in Outside(captured, blocks[last].nactvar);
    }
    if Outside(captured, blocks[last].nactvar) != {} {
      var r :| r in Outside(captured, blocks[last].nactvar);
      assert r in captured && Owner(blocks, r) == last;
    }
  }

  lemma LeftBlock(blocks: seq<Block>, captured: set<nat>, kept: set<nat>, i: nat)
    requires i < |blocks| - 1 && kept == captured - Outside(captured, blocks[|blocks|-1].nactvar)
    ensures OwnsCaptured(blocks[..|blocks|-1], kept, i) <==> OwnsCaptured(blocks, captured, i)
  {
    var last := |blocks| - 1;
    if OwnsCaptured(blocks[..last], kept, i) {
      var r :| r in kept && Owner(blocks[..last], r) == i;
      assert r in captured && Owner(blocks, r) == i;
    }
    if OwnsCaptured(blocks, captured, i) {
      var r :| r in captured && Owner(blocks, r) == i;
      assert r in kept && Owner(blocks[..last], r) == i;
    }
  }

  // ---- Closures at run time ----------------------------------------------------------------

  /** OP_CLOSURE: the cells of a new closure, from the registers and upvalues of the running one. */
  function ClosureCells(ups: seq<Desc>, regs: seq<nat>, cells: seq<nat>): (r: seq<nat>)
    requires forall d :: d in ups ==> d.info < if d.kind == VLocal then |regs| else |cells|
    ensures |r| == |ups|
    ensures forall i :: 0 <= i < |ups| ==> r[i] == if ups[i].kind == VLocal then regs[ups[i].info] else cells[ups[i].info]
  {
    seq(|ups|, i requires 0 <= i < |ups| => if ups[i].kind == VLocal then regs[ups[i].info] else cells[ups[i].info])
  }

  /** The upvalues of the function at `level`, when `frames` are the cells of the registers of the
      functions around it and every closure has been made by its enclosing function. */
  function CellsAt(fs: seq<Fs>, frames: seq<seq<nat>>, level: nat): (r: seq<nat>)
    requires level < |fs| == |frames| && (forall l :: 0 <= l < |fs| ==> DescsOk(fs, l) && |frames[l]| >= |fs[l].actvar|)
    ensures |r| == |fs[level].upvalues|
    decreases level
  {
    assert DescsOk(fs, level);
    if level == 0 then []
    else ClosureCells(fs[level].upvalues, frames[level-1], CellsAt(fs, frames, level - 1))
  }

  /** At run time an upvalue is the cell of the very variable that its name stands for. */
  lemma {:induction false} CellsFollow(fs: seq<Fs>, frames: seq<seq<nat>>, level: nat, u: nat)
    requires level < |fs| == |frames| && (forall l :: 0 <= l < |fs| ==> DescsOk(fs, l) && |frames[l]| >= |fs[l].actvar|)
    requires u < |fs[level].upvalues|
    ensures Origin(fs, level, u).Some?
    ensures var o := Origin(fs, level, u).value;
      o.0 < level && o.1 < |fs[o.0].actvar| && fs[o.0].actvar[o.1] == fs[level].upvalues[u].name && CellsAt(fs, frames, level)[u] == frames[o.0][o.1]
    decreases level
  {
    assert DescsOk(fs, level);
    var d := fs[level].upvalues[u];
    assert d in fs[level].upvalues;
    if d.kind == VUpval { CellsFollow(fs, frames, level - 1, d.info); }
  }

  /** Of all blocks, only the one that owns the variable has been marked. */
  predicate OnlyMarks(fs: seq<Fs>, fs': seq<Fs>, v: (nat, nat)) {
    |fs'| == |fs| && forall l :: 0 <= l < |fs| ==> fs'[l].blocks == if l == v.0 then Marked(fs[l].blocks, v.1) else fs[l].blocks
  }

  lemma {:induction false} OwnerIs(blocks: seq<Block>, reg: nat, bl: int)
    requires -1 <= bl < |blocks| && (bl >= 0 ==> blocks[bl].nactvar <= reg) && forall i :: bl < i < |blocks| ==> blocks[i].nactvar > reg
    ensures Owner(blocks, reg) == bl
    decreases |blocks|
  {
    if blocks != [] && bl < |blocks| - 1 { OwnerIs(blocks[..|blocks|-1], reg, bl); }
  }

  /** The owner of a register depends on where the blocks begin only. */
  lemma {:induction false} SameOwner(blocks: seq<Block>, blocks': seq<Block>, reg: nat)
    requires |blocks'| == |blocks| && forall i :: 0 <= i < |blocks| ==> blocks'[i].nactvar == blocks[i].nactvar
    ensures Owner(blocks', reg) == Owner(blocks, reg)
    decreases |blocks|
  {
    if blocks != [] { SameOwner(blocks[..|blocks|-1], blocks'[..|blocks|-1], reg); }
  }

  lemma ExtendedSelf(fs: seq<Fs>, l: int)
    ensures Extended(fs, fs, l)
  {
  }

  lemma MarkingExtends(fs: seq<Fs>, level: nat, v: nat)
    requires level < |fs|
    ensures Extended(fs, fs, level) && Extended(fs, fs[level := fs[level].(blocks := Marked(fs[level].blocks, v))], level)
  {
  }

  lemma LaterLevel(fs: seq<Fs>, mid: seq<Fs>, level: nat)
    requires Extended(fs, mid, level - 1)
    ensures Extended(fs, mid, level) && |mid| == |fs|
  {
  }

  /** What indexupvalue is given has the name that is looked up. */
  lemma FoundBelow(fs: seq<Fs>, mid: seq<Fs>, level: nat, n: Name, r: Var)
    requires 0 < level < |fs| && Extended(fs, mid, level - 1)
    ensures r.Local? && Resolve(fs, level - 1, n) == Some((level - 1, r.reg)) ==> r.reg < |mid[level-1].actvar| && mid[level-1].actvar[r.reg] == n
  {
  }

  /** The descriptor that has been found or recorded leads to the variable. */
  lemma Followed(fs: seq<Fs>, mid: seq<Fs>, fs': seq<Fs>, level: nat, n: Name, r: Var, i: nat)
    requires 0 < level < |fs| && Extended(fs, mid, level - 1) && Extended(mid, fs', level) && Latest(fs[level].actvar, n) < 0
    requires forall l :: 0 <= l < |fs'| && l != level ==> fs'[l] == mid[l]
    requires fs'[level].blocks == mid[level].blocks && i < |fs'[level].upvalues|
    requires r.Local? || r.Upvalue?
    requires fs'[level].upvalues[i] == Desc(if r.Local? then VLocal else VUpval, if r.Local? then r.reg else r.idx, n)
    requires r.Local? ==> Resolve(fs, level - 1, n) == Some((level - 1, r.reg)) && mid == fs[level-1 := fs[level-1].(blocks := Marked(fs[level-1].blocks, r.reg))]
    requires r.Upvalue? ==> Resolve(fs, level - 1, n).Some? && Resolve(fs, level - 1, n).value.0 < level - 1
    requires r.Upvalue? ==> Origin(mid, level - 1, r.idx) == Resolve(fs, level - 1, n) && OnlyMarks(fs, mid, Resolve(fs, level - 1, n).value)
    ensures Resolve(fs, level, n) == Resolve(fs, level - 1, n) && Origin(fs', level, i) == Resolve(fs, level, n)
    ensures OnlyMarks(fs, fs', Resolve(fs, level, n).value)
  {
    hide Marked;
    if r.Upvalue? { OriginStays(mid, fs', level, level - 1, r.idx); }
  }

  lemma CapturedSize(fs: seq<Fs>, captured: seq<set<nat>>)
    requires StackOk(fs, captured)
    ensures |captured| == |fs|
  {
  }

  lemma DescsAt(fs: seq<Fs>, captured: seq<set<nat>>, l: nat)
    requires StackOk(fs, captured) && l < |fs|
    ensures DescsOk(fs, l) && |captured| == |fs|
  {
    assert LevelOk(fs, captured, l);
  }

  lemma MarkedOk(f: Fs, captured: set<nat>, reg: nat)
    requires BlocksOk(f, captured) && reg < |f.actvar|
    ensures BlocksOk(f.(blocks := Marked(f.blocks, reg)), captured + {reg})
  {
    hide OwnsCaptured, Owner;
    var m := Marked(f.blocks, reg);
    forall i | 0 <= i < |m| ensures m[i].upval <==> OwnsCaptured(m, captured + {reg}, i) {
      MarkedBlock(f.blocks, captured, reg, i);
    }
  }

  lemma MarkedBlock(blocks: seq<Block>, captured: set<nat>, reg: nat, i: nat)
    requires i < |blocks| && (blocks[i].upval <==> OwnsCaptured(blocks, captured, i))
    ensures var m := Marked(blocks, reg); m[i].upval <==> OwnsCaptured(m, captured + {reg}, i)
  {
    hide Owner;
    var m := Marked(blocks, reg);
    SameOwner(blocks, m, reg);
    if OwnsCaptured(blocks, captured, i) {
      var r :| r in captured && Owner(blocks, r) == i;
      SameOwner(blocks, m, r);
      assert r in captured + {reg};
    }
    if OwnsCaptured(m, captured + {reg}, i) {
      var r :| r in captured + {reg} && Owner(m, r) == i;
      SameOwner(blocks, m, r);
    }
    if i == Owner(blocks, reg) { assert reg in captured + {reg} && Owner(m, reg) == i; }
  }

  lemma StillOk(fs: seq<Fs>, fs': seq<Fs>, captured: seq<set<nat>>, captured': seq<set<nat>>, level: nat, reg: nat)
    requires StackOk(fs, captured) && level < |fs| && captured' == captured[level := captured[level] + {reg}] && reg < |fs[level].actvar|
    requires fs' == fs[level := fs[level].(blocks := Marked(fs[level].blocks, reg))]
    ensures StackOk(fs', captured')
  {
    hide BlocksOk, Owner, Marked, Distinct;
    assert LevelOk(fs, captured, level);
    MarkedOk(fs[level], captured[level], reg);
    forall l | 0 <= l < |fs'| ensures LevelOk(fs', captured', l) {
      assert LevelOk(fs, captured, l);
    }
  }

  lemma RecordedOk(fs: seq<Fs>, captured: seq<set<nat>>, level: nat, d: Desc)
    requires StackOk(fs, captured) && 0 < level < |fs| && (d.kind == VLocal ==> d.info in captured[level-1])
    requires forall j :: 0 <= j < |fs[level].upvalues| ==> fs[level].upvalues[j].kind != d.kind || fs[level].upvalues[j].info != d.info
    requires if d.kind == VLocal then d.info < |fs[level-1].actvar| && fs[level-1].actvar[d.info] == d.name
             else d.info < |fs[level-1].upvalues| && fs[level-1].upvalues[d.info].name == d.name
    ensures StackOk(fs[level := fs[level].(upvalues := fs[level].upvalues + [d])], captured)
  {
    hide OwnsCaptured, Owner;
    var fs' := fs[level := fs[level].(upvalues := fs[level].upvalues + [d])];
    assert forall l :: 0 <= l < |fs| ==> fs'[l].actvar == fs[l].actvar && fs[l].upvalues <= fs'[l].upvalues && fs'[l].blocks == fs[l].blocks;
    forall l | 0 <= l < |fs'| ensures LevelOk(fs', captured, l) {
      assert LevelOk(fs, captured, l);
      SameBlocks(fs[l], fs'[l], captured[l]);
      hide BlocksOk;
    }
  }

  lemma SameBlocks(f: Fs, f': Fs, captured: set<nat>)
    requires BlocksOk(f, captured) && f'.actvar == f.actvar && f'.blocks == f.blocks
    ensures BlocksOk(f', captured)
  {
  }
}
