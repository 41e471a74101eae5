/** A snapshot of the collector's state, the invariant every step keeps, and what single changes do to it. */
module GcState {
  import opened LuaHeap
  import opened Marking

  datatype Phase = Pause | Propagate | SweepString | Sweep | Finalize

  datatype Snap = Snap(
    obj: Heap, col: Colours, fixed: set<Ref>, next: nat,
    rootgc: seq<Ref>, strt: seq<seq<Ref>>, uvhead: seq<Ref>, gray: seq<Ref>, grayagain: seq<Ref>,
    cw: bool, phase: Phase, sweepstrgc: nat, sweepgc: nat,
    main: Ref, running: Ref, registry: Ref, mt: seq<Value>, hash: string -> nat)

  ghost function Refs(vs: seq<Value>): set<Ref> {
    set i | 0 <= i < |vs| && vs[i].Gc? :: vs[i].ref
  }

  ghost function Roots(s: Snap): set<Ref> {
    {s.main, s.running, s.registry} + Refs(s.mt)
  }

  ghost predicate SameRootFields(s0: Snap, s1: Snap) {
    s1.main == s0.main && s1.running == s0.running && s1.registry == s0.registry && s1.mt == s0.mt
  }

  /** The roots, by name: the two threads, the registry and the metatables of basic types. */
  lemma RootsMeaning(s: Snap, x: Ref)
    ensures x in Roots(s) <==> x == s.main || x == s.running || x == s.registry || Gc(x) in s.mt
  {
    if Gc(x) in s.mt {
      var i :| 0 <= i < |s.mt| && s.mt[i] == Gc(x);
      assert s.mt[i].ref in Refs(s.mt);
    }
    if x in Refs(s.mt) {
      var i :| 0 <= i < |s.mt| && s.mt[i].Gc? && s.mt[i].ref == x;
      assert s.mt[i] == Gc(x);
    }
  }

  /** Objects that are not dead: not of the white that the sweep frees. */
  ghost function Live(col: Colours, cw: bool): set<Ref> {
    set x | x in col && col[x] != White(!cw)
  }

  ghost function OpenUpvals(obj: Heap): set<Ref> {
    set x | x in obj && IsOpen(obj[x])
  }

  // ---- Lists -------------------------------------------------------------------------------

  /** The open upvalues of thread t: each open on t, in strictly descending order of level. */
  ghost predicate Descending(obj: Heap, t: Ref, us: seq<Ref>) {
    && (forall i :: 0 <= i < |us| ==> us[i] in obj && IsOpen(obj[us[i]]) && obj[us[i]].cell.thread == t)
    && (forall i, j :: 0 <= i < j < |us| ==> obj[us[i]].cell.level > obj[us[j]].cell.level)
  }

  ghost predicate OpenOk(obj: Heap, x: Ref)
    requires x in obj
  {
    match obj[x]
    case UpVal(Open(t, l)) => t in obj && obj[t].Thread? && l < |obj[t].stack| && x in obj[t].openupval
    case Thread(_, _, us) => Descending(obj, x, us)
    case _ => true
  }

  function Bucket(hash: string -> nat, chars: string, size: nat): (b: nat)
    requires size > 0
    ensures b < size
  {
    hash(chars) % size
  }

  ghost predicate Interned(obj: Heap, strt: seq<seq<Ref>>, hash: string -> nat) {
    && |strt| > 0
    && (forall b :: 0 <= b < |strt| ==> NoDup(strt[b]))
    && (forall b, x :: 0 <= b < |strt| && x in strt[b] ==>
          x in obj && obj[x].Str? && Bucket(hash, obj[x].chars, |strt|) == b)
    && (forall x :: x in obj && obj[x].Str? ==> x in strt[Bucket(hash, obj[x].chars, |strt|)])
    && (forall x, y :: x in obj && y in obj && obj[x].Str? && obj[y].Str? && obj[x].chars == obj[y].chars ==> x == y)
  }

  ghost predicate RootList(obj: Heap, rootgc: seq<Ref>) {
    NoDup(rootgc) && forall x :: x in rootgc <==> x in obj && OnRootList(obj[x])
  }

  ghost predicate UvList(obj: Heap, uvhead: seq<Ref>) {
    NoDup(uvhead) && forall x :: x in uvhead <==> x in obj && IsOpen(obj[x])
  }

  ghost predicate Listed(s: Snap) {
    && s.obj.Keys == s.col.Keys
    && RootList(s.obj, s.rootgc) && UvList(s.obj, s.uvhead) && Interned(s.obj, s.strt, s.hash)
    && (forall x :: x in s.obj ==> OpenOk(s.obj, x) && x < s.next)
    && (forall x :: x in s.obj && s.col[x] == Black ==> !s.obj[x].Thread? && !s.obj[x].Str? && !IsOpen(s.obj[x]))
    && s.main in s.obj && s.obj[s.main].Thread? && s.running in s.obj && s.obj[s.running].Thread?
    && (forall x :: x in s.fixed ==> x == s.main || (x in s.obj && s.obj[x].Str?))
  }

  // ---- Safety and phases -------------------------------------------------------------------

  /** The roots are not dead, and nothing that is not dead refers to a dead or freed object. */
  ghost predicate Safe(s: Snap) {
    Roots(s) <= Live(s.col, s.cw) && ClosedUnder(s.obj, Live(s.col, s.cw))
  }

  ghost predicate AllWhite(col: Colours, cw: bool) {
    forall x :: x in col ==> col[x] == White(cw)
  }

  /** The propagate phase; the objects in `exc` are about to be seen by a barrier. */
  ghost predicate InPropagate(s: Snap, exc: set<Ref>) {
    && (forall x :: x in s.col ==> s.col[x] != White(!s.cw))
    && Coloured(s.obj, s.col, s.gray, s.grayagain, {})
    && Front(s.obj, s.col, s.gray, Elems(s.grayagain) + OpenUpvals(s.obj) + exc)
    && Dark(s.col, s.main) && Dark(s.col, s.registry)
  }

  ghost predicate InSweepString(s: Snap) {
    && s.sweepgc == 0 && s.sweepstrgc < |s.strt|
    && forall b, x :: 0 <= b < s.sweepstrgc && x in s.strt[b] ==> x in s.col && s.col[x] == White(s.cw)
  }

  /** Objects of rootgc before the sweep pointer, and the open upvalues of threads among them. */
  ghost predicate Behind(s: Snap, x: Ref) {
    s.sweepgc <= |s.rootgc| && x in s.obj &&
    (x in s.rootgc[..s.sweepgc] || (IsOpen(s.obj[x]) && s.obj[x].cell.thread in s.rootgc[..s.sweepgc]))
  }

  ghost predicate InSweep(s: Snap) {
    && s.sweepgc <= |s.rootgc|
    && forall x :: x in s.obj && x in s.col && (s.obj[x].Str? || Behind(s, x)) ==> s.col[x] == White(s.cw)
  }

  ghost predicate PhaseOk(s: Snap, exc: set<Ref>) {
    match s.phase
    case Pause => AllWhite(s.col, s.cw)
    case Propagate => InPropagate(s, exc)
    case SweepString => InSweepString(s)
    case Sweep => InSweep(s)
    case Finalize => AllWhite(s.col, s.cw)
  }

  ghost predicate Inv(s: Snap) { Listed(s) && Safe(s) && PhaseOk(s, {}) }

  /** What the collector promises: whatever the program can reach is allocated and not dead. */
  lemma ReachableIsAlive(s: Snap, x: Ref)
    requires Inv(s) && Reachable(s.obj, Roots(s), x)
    ensures x in s.obj && x in Live(s.col, s.cw)
  {
    var p :| IsPath(s.obj, Roots(s), p) && p[|p|-1] == x;
    ReachableStaysIn(s.obj, Roots(s), Live(s.col, s.cw), p);
  }

  // ---- A store into an object --------------------------------------------------------------

  /** o may replace obj[x]: same kind, and no open upvalue loses its stack slot. */
  ghost predicate Writable(obj: Heap, x: Ref, o: Obj) {
    && x in obj
    && match obj[x]
       case Table(_) => o.Table?
       case Function(_) => o.Function?
       case Proto(_) => o.Proto?
       case UpVal(Closed(_)) => o.UpVal? && o.cell.Closed?
       case Thread(_, _, us) => o.Thread? && o.openupval == us &&
                                (forall i :: 0 <= i < |us| && us[i] in obj && IsOpen(obj[us[i]]) ==> obj[us[i]].cell.level < |o.stack|)
       case _ => false
  }

  ghost predicate InLive(s: Snap, vs: seq<Value>) {
    forall v :: v in vs && v.Gc? ==> v.ref in Live(s.col, s.cw)
  }

  lemma WriteListed(s: Snap, x: Ref, o: Obj)
    requires Listed(s) && Writable(s.obj, x, o)
    ensures Listed(s.(obj := s.obj[x := o]))
  {
    hide RootList, UvList, Interned, Descending;
    var obj := s.obj[x := o];
    WriteLists(s, x, o);
    forall y | y in obj ensures OpenOk(obj, y) {
      assert OpenOk(s.obj, y) && OpenOk(s.obj, x);
      if s.obj[y].Thread? { DescendingFrame(s.obj, obj, y, s.obj[y].openupval); }
      if IsOpen(s.obj[y]) && s.obj[y].cell.thread == x { WriteLevels(s.obj, x, o, y); }
    }
  }

  lemma WriteLevels(obj: Heap, x: Ref, o: Obj, y: Ref)
    requires Writable(obj, x, o) && y in obj && OpenOk(obj, y) && OpenOk(obj, x)
    requires IsOpen(obj[y]) && obj[y].cell.thread == x
    ensures obj[y].cell.level < |o.stack| && o.openupval == obj[x].openupval
  {
  }

  lemma WriteLists(s: Snap, x: Ref, o: Obj)
    requires Listed(s) && Writable(s.obj, x, o)
    ensures RootList(s.obj[x := o], s.rootgc)
    ensures UvList(s.obj[x := o], s.uvhead)
    ensures Interned(s.obj[x := o], s.strt, s.hash)
  {
    hide OpenOk;
  }

  /** Every value of `now` is live or stood at the same place in `was`. */
  ghost predicate SlotWise(s: Snap, was: seq<Value>, now: seq<Value>) {
    forall i :: 0 <= i < |now| && now[i].Gc? ==>
      now[i].ref in Live(s.col, s.cw) || (i < |was| && now[i] == was[i])
  }

  lemma WriteEdge(s: Snap, x: Ref, o: Obj, y: Ref, z: Ref)
    requires Writable(s.obj, x, o) && y in s.obj && OpenOk(s.obj, y) && Edge(s.obj[x := o], y, z)
    requires SlotWise(s, ValuesOf(s.obj, x), ValuesOf(s.obj[x := o], x))
    ensures Edge(s.obj, y, z) || z in Live(s.col, s.cw)
  {
    var obj := s.obj[x := o];
    if IsOpen(s.obj[y]) && s.obj[y].cell.thread == x {
      var l := s.obj[y].cell.level;
      assert ValuesOf(obj, y) == [o.stack[l]];
      assert o.stack[l] == ValuesOf(obj, x)[l+1];
    } else if y == x {
      var i :| 0 <= i < |ValuesOf(obj, x)| && ValuesOf(obj, x)[i] == Gc(z);
    }
  }

  lemma WriteSafe(s: Snap, x: Ref, o: Obj)
    requires Listed(s) && Safe(s) && Writable(s.obj, x, o)
    requires SlotWise(s, ValuesOf(s.obj, x), ValuesOf(s.obj[x := o], x))
    ensures Safe(s.(obj := s.obj[x := o]))
  {
    hide RootList, UvList, Interned, OpenOk, Writable, SlotWise;
    var obj := s.obj[x := o];
    forall y, z | y in Live(s.col, s.cw) && Edge(obj, y, z) ensures z in Live(s.col, s.cw) {
      WriteEdge(s, x, o, y, z);
    }
  }

  lemma WritePropagate(s: Snap, x: Ref, o: Obj)
    requires Listed(s) && InPropagate(s, {}) && Writable(s.obj, x, o)
    ensures InPropagate(s.(obj := s.obj[x := o]), {x})
  {
    hide RootList, UvList, Interned, OpenOk, NoDup;
    var obj := s.obj[x := o];
    assert OpenUpvals(obj) == OpenUpvals(s.obj);
    assert Coloured(obj, s.col, s.gray, s.grayagain, {});
    forall y | Dark(s.col, y) && y != x && !Settled(obj, s.col, y)
      ensures y in s.gray || y in Elems(s.grayagain) + OpenUpvals(s.obj)
    {
      if !IsOpen(s.obj[y]) {
        assert ValuesOf(obj, y) == ValuesOf(s.obj, y);
        assert forall z :: Edge(obj, y, z) ==> Edge(s.obj, y, z);
        assert !Settled(s.obj, s.col, y);
      }
    }
  }

  /** In the propagate phase a store keeps all but the promise about x itself. */
  lemma WritePhase(s: Snap, x: Ref, o: Obj)
    requires Listed(s) && PhaseOk(s, {}) && Writable(s.obj, x, o)
    ensures PhaseOk(s.(obj := s.obj[x := o]), {x})
  {
    hide RootList, UvList, Interned, Coloured, Front, OpenOk;
    var s' := s.(obj := s.obj[x := o]);
    match s.phase
    case Propagate => WritePropagate(s, x, o);
    case Sweep => assert forall y :: Behind(s', y) ==> Behind(s, y);
    case _ =>
  }

  // ---- Allocation --------------------------------------------------------------------------

  ghost predicate SameKind(a: Obj, b: Obj) {
    match a
    case Str(_) => b.Str?
    case Table(_) => b.Table?
    case Function(_) => b.Function?
    case Proto(_) => b.Proto?
    case UpVal(c) => b.UpVal? && b.cell.Open? == c.Open?
    case Thread(_, _, _) => b.Thread?
  }

  /** obj1 is obj0 with the new object x; the others keep their kind and refer to the same values. */
  ghost predicate Extends(obj0: Heap, obj1: Heap, x: Ref) {
    && x !in obj0 && obj1.Keys == obj0.Keys + {x}
    && forall y :: y in obj0 ==> SameKind(obj0[y], obj1[y]) && ValuesOf(obj1, y) == ValuesOf(obj0, y)
  }

  /** A new white object that refers to live objects only breaks neither safety nor the phase. */
  lemma ExtendSafe(s: Snap, obj: Heap, x: Ref)
    requires s.obj.Keys == s.col.Keys && Safe(s) && Extends(s.obj, obj, x)
    requires InLive(s, ValuesOf(obj, x))
    ensures Safe(s.(obj := obj, col := s.col[x := White(s.cw)]))
  {
    var col := s.col[x := White(s.cw)];
    assert Live(col, s.cw) == Live(s.col, s.cw) + {x};
    forall y, z | y in Live(col, s.cw) && Edge(obj, y, z) ensures z in Live(col, s.cw) {
      if y != x {
        assert Edge(s.obj, y, z);
      }
    }
  }

  lemma ExtendPropagate(s: Snap, obj: Heap, x: Ref)
    requires s.obj.Keys == s.col.Keys && InPropagate(s, {}) && Extends(s.obj, obj, x)
    ensures InPropagate(s.(obj := obj, col := s.col[x := White(s.cw)]), {})
  {
    hide Coloured, ValuesOf;
    var col := s.col[x := White(s.cw)];
    assert OpenUpvals(s.obj) <= OpenUpvals(obj);
    forall y | Dark(col, y) && !Settled(obj, col, y)
      ensures y in s.gray || y in Elems(s.grayagain) + OpenUpvals(obj)
    {
      assert Dark(s.col, y);
      if Settled(s.obj, s.col, y) {
        forall z | Edge(obj, y, z) ensures Dark(col, z) { assert Edge(s.obj, y, z); }
      }
    }
    assert Coloured(obj, col, s.gray, s.grayagain, {}) by { ExtendColoured(s, obj, x); }
  }

  lemma ExtendColoured(s: Snap, obj: Heap, x: Ref)
    requires Coloured(s.obj, s.col, s.gray, s.grayagain, {}) && Extends(s.obj, obj, x)
    ensures Coloured(obj, s.col[x := White(s.cw)], s.gray, s.grayagain, {})
  {
    hide NoDup, ColourOk;
    var col := s.col[x := White(s.cw)];
    forall y | y in obj ensures ColourOk(obj[y], col[y], y in s.gray || y in s.grayagain, false) {
      if y != x { SameKindColour(s.obj[y], obj[y], s.col[y], y in s.gray || y in s.grayagain); }
      NewColour(obj[y], s.cw);
    }
  }

  lemma SameKindColour(o: Obj, o': Obj, c: Colour, listed: bool)
    requires SameKind(o, o') && ColourOk(o, c, listed, false)
    ensures ColourOk(o', c, listed, false)
  {
  }

  lemma NewColour(o: Obj, cw: bool)
    ensures ColourOk(o, White(cw), false, false)
  {
  }

  lemma NewClosureLive(s: Snap, env: Value, p: Value)
    requires LiveValue(s, env) && LiveValue(s, p)
    ensures InLive(s, ValuesOf(s.obj[s.next := Function([env, p])], s.next))
  {
  }

  /** The position of the sweep pointer after an object is linked at the head of rootgc: a pointer
      to the head stays there. */
  function Shift(sweepgc: nat): nat { if sweepgc > 0 then sweepgc + 1 else 0 }

  lemma ShiftBehind(rootgc: seq<Ref>, k: nat, x: Ref, y: Ref)
    requires k <= |rootgc| && y in ([x] + rootgc)[..Shift(k)]
    ensures y == x || y in rootgc[..k]
  {
    if k > 0 { assert ([x] + rootgc)[..k+1] == [x] + rootgc[..k]; }
  }

  /** luaC_link. */
  function Linked(s: Snap, x: Ref, o: Obj): Snap {
    s.(obj := s.obj[x := o], col := s.col[x := White(s.cw)], next := x + 1,
       rootgc := [x] + s.rootgc, sweepgc := Shift(s.sweepgc))
  }

  lemma LinkExtends(s: Snap, x: Ref, o: Obj)
    requires Listed(s) && x == s.next
    ensures Extends(s.obj, s.obj[x := o], x)
  {
    hide RootList, UvList, Interned;
    forall y | y in s.obj ensures ValuesOf(s.obj[x := o], y) == ValuesOf(s.obj, y) {
      assert OpenOk(s.obj, y);
    }
  }

  lemma LinkKeeps(s: Snap, x: Ref, o: Obj)
    requires Inv(s) && x == s.next && OnRootList(o) && (o.Thread? ==> o.openupval == [])
    requires InLive(s, ValuesOf(s.obj[x := o], x))
    ensures Inv(Linked(s, x, o))
  {
    hide Listed, Safe, PhaseOk;
    LinkExtends(s, x, o);
    LinkListed(s, x, o);
    LinkSafe(s, x, o);
    LinkPhase(s, x, o);
  }

  lemma LinkNoDup(l: seq<Ref>, x: Ref)
    requires NoDup(l) && x !in l
    ensures NoDup([x] + l)
  {
  }

  lemma LinkListed(s: Snap, x: Ref, o: Obj)
    requires Listed(s) && x == s.next && OnRootList(o) && (o.Thread? ==> o.openupval == [])
    ensures Listed(Linked(s, x, o))
  {
    hide RootList, UvList, Interned;
    var obj := s.obj[x := o];
    LinkLists(s, x, o);
    forall y | y in obj ensures OpenOk(obj, y) && y < x + 1 {
      if y != x { assert OpenOk(s.obj, y); }
    }
  }

  lemma LinkLists(s: Snap, x: Ref, o: Obj)
    requires Listed(s) && x == s.next && OnRootList(o)
    ensures RootList(s.obj[x := o], [x] + s.rootgc)
    ensures UvList(s.obj[x := o], s.uvhead)
    ensures Interned(s.obj[x := o], s.strt, s.hash)
  {
    hide OpenOk, NoDup;
    assert x !in s.obj;
    LinkNoDup(s.rootgc, x);
  }

  lemma LinkSafe(s: Snap, x: Ref, o: Obj)
    requires Listed(s) && Safe(s) && Extends(s.obj, s.obj[x := o], x)
    requires InLive(s, ValuesOf(s.obj[x := o], x))
    ensures Safe(Linked(s, x, o))
  {
    hide RootList, UvList, Interned;
    ExtendSafe(s, s.obj[x := o], x);
  }

  lemma LinkPropagate(s: Snap, x: Ref, o: Obj)
    requires s.obj.Keys == s.col.Keys && InPropagate(s, {}) && Extends(s.obj, s.obj[x := o], x)
    ensures InPropagate(Linked(s, x, o), {})
  {
    hide Coloured, Front;
    ExtendPropagate(s, s.obj[x := o], x);
  }

  lemma LinkPhase(s: Snap, x: Ref, o: Obj)
    requires Listed(s) && PhaseOk(s, {}) && Extends(s.obj, s.obj[x := o], x) && OnRootList(o)
    ensures PhaseOk(Linked(s, x, o), {})
  {
    hide InPropagate, UvList, Interned;
    var s' := Linked(s, x, o);
    match s.phase
    case Propagate => LinkPropagate(s, x, o);
    case Sweep =>
      forall y | y in s'.obj && (s'.obj[y].Str? || Behind(s', y)) ensures s'.col[y] == White(s.cw) {
        if y != x && !s.obj[y].Str? {
          ShiftBehind(s.rootgc, s.sweepgc, x, if y in s'.rootgc[..s'.sweepgc] then y else s.obj[y].cell.thread);
          assert OpenOk(s.obj, y);
        }
      }
    case SweepString =>
    case _ =>
  }

  /** newlstr: a new string at the head of its bucket. */
  function Added(s: Snap, x: Ref, chars: string): Snap
    requires |s.strt| > 0
  {
    var b := Bucket(s.hash, chars, |s.strt|);
    s.(obj := s.obj[x := Str(chars)], col := s.col[x := White(s.cw)], next := x + 1,
       strt := s.strt[b := [x] + s.strt[b]])
  }

  lemma AddedKeeps(s: Snap, x: Ref, chars: string)
    requires Inv(s) && x == s.next && forall y :: y in s.obj ==> s.obj[y] != Str(chars)
    ensures Inv(Added(s, x, chars))
  {
    hide Safe, PhaseOk, Interned, RootList, UvList;
    LinkExtends(s, x, Str(chars));
    AddedListed(s, x, chars);
    AddedSafe(s, x, chars);
    AddedPhase(s, x, chars);
  }

  lemma AddedListed(s: Snap, x: Ref, chars: string)
    requires Listed(s) && x == s.next && forall y :: y in s.obj ==> s.obj[y] != Str(chars)
    ensures Listed(Added(s, x, chars))
  {
    hide Interned, RootList, UvList;
    var obj := s.obj[x := Str(chars)];
    AddedInterned(s, x, chars);
    AddedLists(s, x, chars);
    forall y | y in obj ensures OpenOk(obj, y) && y < x + 1 {
      if y != x { assert OpenOk(s.obj, y); }
    }
  }

  lemma AddedLists(s: Snap, x: Ref, chars: string)
    requires Listed(s) && x == s.next
    ensures RootList(s.obj[x := Str(chars)], s.rootgc) && UvList(s.obj[x := Str(chars)], s.uvhead)
  {
    hide Interned, OpenOk;
    assert x !in s.obj;
  }

  lemma AddedInterned(s: Snap, x: Ref, chars: string)
    requires Interned(s.obj, s.strt, s.hash) && x !in s.obj && forall y :: y in s.obj ==> s.obj[y] != Str(chars)
    ensures Interned(Added(s, x, chars).obj, Added(s, x, chars).strt, s.hash)
  {
    hide Bucket;
    var b := Bucket(s.hash, chars, |s.strt|);
    assert x !in s.strt[b];
    LinkNoDup(s.strt[b], x);
  }

  lemma AddedSafe(s: Snap, x: Ref, chars: string)
    requires Listed(s) && Safe(s) && Extends(s.obj, s.obj[x := Str(chars)], x)
    ensures Safe(Added(s, x, chars))
  {
    hide RootList, UvList, Extends;
    ExtendSafe(s, s.obj[x := Str(chars)], x);
  }

  lemma AddedPropagate(s: Snap, x: Ref, chars: string)
    requires s.obj.Keys == s.col.Keys && InPropagate(s, {}) && Extends(s.obj, s.obj[x := Str(chars)], x) && |s.strt| > 0
    ensures InPropagate(Added(s, x, chars), {})
  {
    hide Coloured, Front;
    ExtendPropagate(s, s.obj[x := Str(chars)], x);
  }

  lemma AddedSweep(s: Snap, x: Ref, chars: string)
    requires Listed(s) && InSweep(s) && x == s.next
    ensures InSweep(Added(s, x, chars))
  {
    hide RootList, UvList;
    var s' := Added(s, x, chars);
    forall y | y in s'.obj && (s'.obj[y].Str? || Behind(s', y)) ensures s'.col[y] == White(s.cw) {
      if y != x { assert Behind(s', y) ==> Behind(s, y); }
    }
  }

  lemma AddedPhase(s: Snap, x: Ref, chars: string)
    requires Listed(s) && PhaseOk(s, {}) && Extends(s.obj, s.obj[x := Str(chars)], x) && x == s.next
    ensures PhaseOk(Added(s, x, chars), {})
  {
    hide InPropagate, InSweep, RootList, UvList, Extends, OpenOk;
    match s.phase
    case Propagate => AddedPropagate(s, x, chars);
    case Sweep => AddedSweep(s, x, chars);
    case _ =>
  }

  /** A new open upvalue of thread t at position k of its list. */
  function Opened(s: Snap, x: Ref, t: Ref, l: nat, k: nat): Snap
    requires t in s.obj && s.obj[t].Thread? && k <= |s.obj[t].openupval|
  {
    var us := s.obj[t].openupval;
    s.(obj := s.obj[x := UpVal(Open(t, l))][t := s.obj[t].(openupval := us[..k] + [x] + us[k..])],
       col := s.col[x := White(s.cw)], next := x + 1, uvhead := [x] + s.uvhead)
  }

  /** Position k of the list of t is where an upvalue of level l belongs. */
  ghost predicate Fits(obj: Heap, t: Ref, l: nat, k: nat) {
    && t in obj && obj[t].Thread? && k <= |obj[t].openupval| && l < |obj[t].stack|
    && Descending(obj, t, obj[t].openupval)
    && (forall i :: 0 <= i < k ==> obj[obj[t].openupval[i]].cell.level > l)
    && (forall i :: k <= i < |obj[t].openupval| ==> obj[obj[t].openupval[i]].cell.level < l)
  }

  lemma OpenedKeeps(s: Snap, x: Ref, t: Ref, l: nat, k: nat)
    requires Inv(s) && x == s.next && Fits(s.obj, t, l, k) && t in Live(s.col, s.cw)
    ensures Inv(Opened(s, x, t, l, k)) && Extends(s.obj, Opened(s, x, t, l, k).obj, x)
  {
    hide Safe, PhaseOk, Interned, RootList, UvList, Fits;
    OpenedExtends(s, x, t, l, k);
    OpenedListed(s, x, t, l, k);
    OpenedSafe(s, x, t, l, k);
    OpenedPhase(s, x, t, l, k);
  }

  lemma OpenedExtends(s: Snap, x: Ref, t: Ref, l: nat, k: nat)
    requires Listed(s) && x == s.next && Fits(s.obj, t, l, k)
    ensures Extends(s.obj, Opened(s, x, t, l, k).obj, x)
  {
    hide RootList, UvList, Interned, Descending;
    var obj := Opened(s, x, t, l, k).obj;
    forall y | y in s.obj ensures ValuesOf(obj, y) == ValuesOf(s.obj, y) {
      assert OpenOk(s.obj, y);
    }
  }

  lemma OpenedListed(s: Snap, x: Ref, t: Ref, l: nat, k: nat)
    requires Listed(s) && x == s.next && Fits(s.obj, t, l, k)
    ensures Listed(Opened(s, x, t, l, k))
  {
    hide RootList, UvList, Interned, OpenOk, Descending;
    var obj := Opened(s, x, t, l, k).obj;
    OpenedLists(s, x, t, l, k);
    forall y | y in obj ensures OpenOk(obj, y) && y < x + 1 {
      if y != x { assert OpenOk(s.obj, y); }
      OpenedOk(s, x, t, l, k, y);
    }
  }

  lemma OpenedLists(s: Snap, x: Ref, t: Ref, l: nat, k: nat)
    requires Listed(s) && x == s.next && Fits(s.obj, t, l, k)
    ensures RootList(Opened(s, x, t, l, k).obj, s.rootgc)
    ensures UvList(Opened(s, x, t, l, k).obj, [x] + s.uvhead)
    ensures Interned(Opened(s, x, t, l, k).obj, s.strt, s.hash)
  {
    hide OpenOk, NoDup, Descending, Bucket;
    LinkNoDup(s.uvhead, x);
  }

  lemma OpenedOk(s: Snap, x: Ref, t: Ref, l: nat, k: nat, y: Ref)
    requires x !in s.obj && Fits(s.obj, t, l, k) && (y == x || (y in s.obj && OpenOk(s.obj, y)))
    ensures OpenOk(Opened(s, x, t, l, k).obj, y)
  {
  }

  lemma OpenedSafe(s: Snap, x: Ref, t: Ref, l: nat, k: nat)
    requires Listed(s) && Safe(s) && Fits(s.obj, t, l, k) && t in Live(s.col, s.cw)
    requires Extends(s.obj, Opened(s, x, t, l, k).obj, x)
    ensures Safe(Opened(s, x, t, l, k))
  {
    hide RootList, UvList, Interned, OpenOk, Extends, Descending;
    var obj := Opened(s, x, t, l, k).obj;
    forall v | v in ValuesOf(obj, x) && v.Gc? ensures v.ref in Live(s.col, s.cw) {
      assert v in ValuesOf(s.obj, t);
      assert Edge(s.obj, t, v.ref);
    }
    ExtendSafe(s, obj, x);
  }

  lemma OpenedPropagate(s: Snap, x: Ref, t: Ref, l: nat, k: nat)
    requires s.obj.Keys == s.col.Keys && InPropagate(s, {}) && Fits(s.obj, t, l, k)
    requires Extends(s.obj, Opened(s, x, t, l, k).obj, x)
    ensures InPropagate(Opened(s, x, t, l, k), {})
  {
    hide Coloured, Front;
    ExtendPropagate(s, Opened(s, x, t, l, k).obj, x);
  }

  lemma OpenedPhase(s: Snap, x: Ref, t: Ref, l: nat, k: nat)
    requires Listed(s) && PhaseOk(s, {}) && Fits(s.obj, t, l, k)
    requires Extends(s.obj, Opened(s, x, t, l, k).obj, x)
    ensures PhaseOk(Opened(s, x, t, l, k), {})
  {
    hide InPropagate, UvList, Interned, Descending;
    var s' := Opened(s, x, t, l, k);
    match s.phase
    case Propagate => OpenedPropagate(s, x, t, l, k);
    case Sweep =>
      forall y | y in s'.obj && (s'.obj[y].Str? || Behind(s', y)) ensures s'.col[y] == White(s.cw) {
        if y != x { assert Behind(s', y) ==> Behind(s, y); }
      }
    case SweepString =>
    case _ =>
  }

  // ---- Recolouring while sweeping ----------------------------------------------------------

  ghost predicate Sweeping(s: Snap) { s.phase == SweepString || s.phase == Sweep }

  /** Everything x refers to is live: true of live objects, and of a dead string or open upvalue
      that is found again. */
  ghost predicate RefersToLive(s: Snap, x: Ref) {
    forall y :: Edge(s.obj, x, y) ==> y in Live(s.col, s.cw)
  }

  /** makewhite, changewhite on a dead object, and black2gray, in a sweep phase. */
  lemma RecolourKeeps(s: Snap, x: Ref, c: Colour)
    requires Inv(s) && Sweeping(s) && x in s.obj && RefersToLive(s, x)
    requires c == White(s.cw) || (c == Gray && s.col[x] == Black)
    ensures Inv(s.(col := s.col[x := c]))
  {
    hide RootList, UvList, Interned, OpenOk, PhaseOk, Safe;
    RecolourSafe(s, x, c);
    RecolourPhase(s, x, c);
  }

  lemma RecolourSafe(s: Snap, x: Ref, c: Colour)
    requires Safe(s) && x in s.obj && RefersToLive(s, x) && c != White(!s.cw) && s.obj.Keys == s.col.Keys
    ensures Safe(s.(col := s.col[x := c]))
  {
    assert Live(s.col[x := c], s.cw) == Live(s.col, s.cw) + {x};
  }

  lemma RecolourPhase(s: Snap, x: Ref, c: Colour)
    requires Sweeping(s) && PhaseOk(s, {}) && x in s.obj && s.obj.Keys == s.col.Keys
    requires c == White(s.cw) || (c == Gray && s.col[x] == Black)
    ensures PhaseOk(s.(col := s.col[x := c]), {})
  {
    var s' := s.(col := s.col[x := c]);
    if s.phase == Sweep {
      assert forall y :: Behind(s', y) == Behind(s, y);
    }
  }

  // ---- Freeing dead objects ----------------------------------------------------------------

  function Without(l: seq<Ref>, i: nat): seq<Ref>
    requires i < |l|
  {
    l[..i] + l[i+1..]
  }

  lemma WithoutMembers(l: seq<Ref>, i: nat)
    requires i < |l| && NoDup(l)
    ensures NoDup(Without(l, i)) && forall x :: x in Without(l, i) <==> x in l && x != l[i]
  {
    assert l == l[..i] + [l[i]] + l[i+1..];
  }

  /** Removing a dead object that no live one refers to keeps safety. */
  lemma ShrinkSafe(s: Snap, obj: Heap, x: Ref)
    requires s.obj.Keys == s.col.Keys && Safe(s) && Extends(obj, s.obj, x) && x !in Live(s.col, s.cw)
    ensures Safe(s.(obj := obj, col := s.col - {x}))
  {
    assert Live(s.col - {x}, s.cw) == Live(s.col, s.cw);
    forall y, z | y in Live(s.col, s.cw) && Edge(obj, y, z) ensures z in Live(s.col, s.cw) {
      assert Edge(s.obj, y, z);
    }
  }

  /** freeobj on the object at position i of rootgc, not before the sweep pointer; a thread has no
      open upvalue left. */
  function FreedRoot(s: Snap, i: nat, x: Ref): Snap
    requires i < |s.rootgc|
  {
    s.(obj := s.obj - {x}, col := s.col - {x}, rootgc := Without(s.rootgc, i))
  }

  ghost predicate FreeableRoot(s: Snap, i: nat, x: Ref) {
    && s.phase == Sweep && s.sweepgc <= i < |s.rootgc| && x == s.rootgc[i] && x in s.obj
    && x !in Live(s.col, s.cw) && x !in s.fixed && (s.obj[x].Thread? ==> s.obj[x].openupval == [])
  }

  lemma FreedRootKeeps(s: Snap, i: nat, x: Ref)
    requires Inv(s) && FreeableRoot(s, i, x)
    ensures Inv(FreedRoot(s, i, x))
  {
    hide Listed, PhaseOk, Safe;
    FreedRootExtends(s, i, x);
    FreedRootListed(s, i, x);
    FreedRootSafe(s, i, x);
    FreedRootPhase(s, i, x);
  }

  lemma FreedRootExtends(s: Snap, i: nat, x: Ref)
    requires Listed(s) && FreeableRoot(s, i, x)
    ensures Extends(s.obj - {x}, s.obj, x)
  {
    hide RootList, UvList, Interned, Descending;
    forall y | y in s.obj - {x} ensures ValuesOf(s.obj - {x}, y) == ValuesOf(s.obj, y) {
      assert OpenOk(s.obj, y);
    }
  }

  lemma FreedRootListed(s: Snap, i: nat, x: Ref)
    requires Listed(s) && Safe(s) && FreeableRoot(s, i, x)
    ensures Listed(FreedRoot(s, i, x))
  {
    hide RootList, UvList, Interned, Descending;
    var obj := s.obj - {x};
    FreedRootLists(s, i, x);
    forall y | y in obj ensures OpenOk(obj, y) {
      assert OpenOk(s.obj, y);
      if s.obj[y].Thread? { FreedDescending(s, x, y, s.obj[y].openupval); }
    }
  }

  lemma FreedDescending(s: Snap, x: Ref, t: Ref, us: seq<Ref>)
    requires Descending(s.obj, t, us) && x in s.obj && !IsOpen(s.obj[x])
    ensures Descending(s.obj - {x}, t, us)
  {
  }

  lemma FreedRootLists(s: Snap, i: nat, x: Ref)
    requires Listed(s) && FreeableRoot(s, i, x)
    ensures RootList(s.obj - {x}, Without(s.rootgc, i)) && UvList(s.obj - {x}, s.uvhead)
    ensures Interned(s.obj - {x}, s.strt, s.hash)
    ensures OnRootList(s.obj[x])
  {
    hide OpenOk, NoDup, Without;
    WithoutMembers(s.rootgc, i);
  }

  lemma FreedRootSafe(s: Snap, i: nat, x: Ref)
    requires Listed(s) && Safe(s) && FreeableRoot(s, i, x) && Extends(s.obj - {x}, s.obj, x)
    ensures Safe(FreedRoot(s, i, x))
  {
    hide RootList, UvList, Interned, OpenOk;
    ShrinkSafe(s, s.obj - {x}, x);
  }

  lemma FreedRootPhase(s: Snap, i: nat, x: Ref)
    requires Listed(s) && PhaseOk(s, {}) && FreeableRoot(s, i, x)
    ensures PhaseOk(FreedRoot(s, i, x), {})
  {
    hide RootList, UvList, Interned, OpenOk;
    var s' := FreedRoot(s, i, x);
    assert s'.rootgc[..s.sweepgc] == s.rootgc[..s.sweepgc];
    assert forall y :: Behind(s', y) ==> Behind(s, y);
  }

  /** freeobj on the string at position i of bucket b. */
  function FreedStr(s: Snap, b: nat, i: nat): Snap
    requires b < |s.strt| && i < |s.strt[b]|
  {
    var x := s.strt[b][i];
    s.(obj := s.obj - {x}, col := s.col - {x}, strt := s.strt[b := Without(s.strt[b], i)])
  }

  ghost predicate FreeableStr(s: Snap, b: nat, i: nat) {
    && s.phase == SweepString && b < |s.strt| && i < |s.strt[b]|
    && s.strt[b][i] !in Live(s.col, s.cw) && s.strt[b][i] !in s.fixed
  }

  lemma FreedStrKeeps(s: Snap, b: nat, i: nat)
    requires Inv(s) && FreeableStr(s, b, i)
    ensures Inv(FreedStr(s, b, i))
  {
    hide RootList, UvList, PhaseOk, Safe, FreeableStr, OpenOk;
    FreedStrInterned(s, b, i);
    FreedStrExtends(s, b, i);
    FreedStrListed(s, b, i);
    FreedStrSafe(s, b, i);
    FreedStrPhase(s, b, i);
  }

  lemma FreedStrInterned(s: Snap, b: nat, i: nat)
    requires Interned(s.obj, s.strt, s.hash) && FreeableStr(s, b, i)
    ensures s.strt[b][i] in s.obj && s.obj[s.strt[b][i]].Str?
    ensures Interned(FreedStr(s, b, i).obj, FreedStr(s, b, i).strt, s.hash)
  {
    hide Bucket, Without;
    WithoutMembers(s.strt[b], i);
  }

  lemma FreedStrExtends(s: Snap, b: nat, i: nat)
    requires Listed(s) && FreeableStr(s, b, i) && s.strt[b][i] in s.obj && s.obj[s.strt[b][i]].Str?
    ensures Extends(FreedStr(s, b, i).obj, s.obj, s.strt[b][i])
  {
    hide RootList, UvList, Interned, Descending;
    var x := s.strt[b][i];
    forall y | y in s.obj - {x} ensures ValuesOf(s.obj - {x}, y) == ValuesOf(s.obj, y) {
      assert OpenOk(s.obj, y);
    }
  }

  lemma FreedStrListed(s: Snap, b: nat, i: nat)
    requires Listed(s) && FreeableStr(s, b, i) && s.strt[b][i] in s.obj && s.obj[s.strt[b][i]].Str?
    requires Interned(FreedStr(s, b, i).obj, FreedStr(s, b, i).strt, s.hash)
    ensures Listed(FreedStr(s, b, i))
  {
    hide Interned, Descending, NoDup;
    var x := s.strt[b][i];
    var obj := s.obj - {x};
    forall y | y in obj ensures OpenOk(obj, y) {
      assert OpenOk(s.obj, y);
      if s.obj[y].Thread? { FreedDescending(s, x, y, s.obj[y].openupval); }
    }
  }

  lemma FreedStrSafe(s: Snap, b: nat, i: nat)
    requires Listed(s) && Safe(s) && FreeableStr(s, b, i)
    requires Extends(FreedStr(s, b, i).obj, s.obj, s.strt[b][i])
    ensures Safe(FreedStr(s, b, i))
  {
    hide RootList, UvList, Interned, OpenOk, Extends;
    ShrinkSafe(s, FreedStr(s, b, i).obj, s.strt[b][i]);
  }

  lemma FreedStrPhase(s: Snap, b: nat, i: nat)
    requires Listed(s) && PhaseOk(s, {}) && FreeableStr(s, b, i)
    ensures PhaseOk(FreedStr(s, b, i), {})
  {
    hide RootList, UvList, OpenOk;
    WithoutMembers(s.strt[b], i);
  }

  /** The open upvalue at position i of the list of t leaves that list and `uvhead`. */
  function Unlinked(obj: Heap, t: Ref, i: nat): Heap
    requires t in obj && obj[t].Thread? && i < |obj[t].openupval|
  {
    obj[t := obj[t].(openupval := Without(obj[t].openupval, i))]
  }

  function Remove(l: seq<Ref>, x: Ref): seq<Ref> {
    if l == [] then [] else if l[0] == x then l[1..] else [l[0]] + Remove(l[1..], x)
  }

  lemma {:induction false} RemoveMembers(l: seq<Ref>, x: Ref)
    requires NoDup(l)
    ensures NoDup(Remove(l, x)) && forall y :: y in Remove(l, x) <==> y in l && y != x
  {
    if l != [] {
      assert l == [l[0]] + l[1..];
      assert l[0] !in l[1..];
      RemoveMembers(l[1..], x);
    }
  }

  lemma {:induction false} RemoveLength(l: seq<Ref>, x: Ref)
    ensures |Remove(l, x)| == if x in l then |l| - 1 else |l|
  {
    if l != [] && l[0] != x {
      assert l == [l[0]] + l[1..];
      RemoveLength(l[1..], x);
    }
  }

  /** luaF_freeupval on a dead open upvalue. */
  function FreedUpval(s: Snap, t: Ref, i: nat): Snap
    requires t in s.obj && s.obj[t].Thread? && i < |s.obj[t].openupval|
  {
    var x := s.obj[t].openupval[i];
    s.(obj := Unlinked(s.obj, t, i) - {x}, col := s.col - {x}, uvhead := Remove(s.uvhead, x))
  }

  ghost predicate FreeableUpval(s: Snap, t: Ref, i: nat) {
    && t in s.obj && s.obj[t].Thread? && i < |s.obj[t].openupval|
    && s.obj[t].openupval[i] !in Live(s.col, s.cw) && s.obj[t].openupval[i] !in s.fixed
  }

  lemma FreedUpvalKeeps(s: Snap, t: Ref, i: nat)
    requires Inv(s) && Sweeping(s) && FreeableUpval(s, t, i)
    ensures Inv(FreedUpval(s, t, i))
  {
    assert OpenOk(s.obj, t);
    FreedUpvalIs(s, t, i);
    hide RootList, UvList, Interned, PhaseOk, Safe, FreeableUpval, OpenOk;
    FreedUpvalExtends(s, t, i);
    FreedUpvalListed(s, t, i);
    FreedUpvalSafe(s, t, i);
    FreedUpvalPhase(s, t, i);
  }

  lemma FreedUpvalIs(s: Snap, t: Ref, i: nat)
    requires FreeableUpval(s, t, i) && OpenOk(s.obj, t)
    ensures var x := s.obj[t].openupval[i]; x in s.obj && IsOpen(s.obj[x]) && s.obj[x].cell.thread == t
  {
  }

  lemma FreedUpvalExtends(s: Snap, t: Ref, i: nat)
    requires Listed(s) && FreeableUpval(s, t, i)
    requires s.obj[t].openupval[i] in s.obj && IsOpen(s.obj[s.obj[t].openupval[i]])
    ensures Extends(FreedUpval(s, t, i).obj, s.obj, s.obj[t].openupval[i])
  {
    hide RootList, UvList, Interned, Descending, NoDup, Remove, Without;
    var x := s.obj[t].openupval[i];
    var obj := FreedUpval(s, t, i).obj;
    forall y | y in obj ensures ValuesOf(obj, y) == ValuesOf(s.obj, y) {
      assert OpenOk(s.obj, y);
    }
  }

  lemma FreedUpvalOk(s: Snap, t: Ref, i: nat, y: Ref)
    requires FreeableUpval(s, t, i) && OpenOk(s.obj, t) && y in s.obj && OpenOk(s.obj, y)
    requires y != s.obj[t].openupval[i] && IsOpen(s.obj[s.obj[t].openupval[i]])
    ensures OpenOk(FreedUpval(s, t, i).obj, y)
  {
    var us := s.obj[t].openupval;
    assert NoDup(us);
    WithoutMembers(us, i);
  }

  lemma FreedUpvalListed(s: Snap, t: Ref, i: nat)
    requires Listed(s) && FreeableUpval(s, t, i)
    requires s.obj[t].openupval[i] in s.obj && IsOpen(s.obj[s.obj[t].openupval[i]])
    ensures Listed(FreedUpval(s, t, i))
  {
    hide RootList, UvList, Interned, OpenOk;
    var obj := FreedUpval(s, t, i).obj;
    FreedUpvalLists(s, t, i);
    forall y | y in obj ensures OpenOk(obj, y) {
      assert OpenOk(s.obj, y);
      assert OpenOk(s.obj, t);
      FreedUpvalOk(s, t, i, y);
    }
  }

  lemma FreedUpvalLists(s: Snap, t: Ref, i: nat)
    requires Listed(s) && FreeableUpval(s, t, i)
    requires s.obj[t].openupval[i] in s.obj && IsOpen(s.obj[s.obj[t].openupval[i]])
    ensures RootList(FreedUpval(s, t, i).obj, s.rootgc)
    ensures UvList(FreedUpval(s, t, i).obj, FreedUpval(s, t, i).uvhead)
    ensures Interned(FreedUpval(s, t, i).obj, s.strt, s.hash)
  {
    hide OpenOk, NoDup, Without, Interned, UvList, Remove;
    FreedUpvalUvList(s, t, i);
    SameStrings(s.obj, FreedUpval(s, t, i).obj, s.strt, s.hash);
  }

  lemma FreedUpvalUvList(s: Snap, t: Ref, i: nat)
    requires Listed(s) && FreeableUpval(s, t, i)
    requires s.obj[t].openupval[i] in s.obj && IsOpen(s.obj[s.obj[t].openupval[i]])
    ensures UvList(FreedUpval(s, t, i).obj, FreedUpval(s, t, i).uvhead)
  {
    hide OpenOk, NoDup, Without, Interned, RootList;
    RemoveMembers(s.uvhead, s.obj[t].openupval[i]);
  }

  /** The string table sees nothing of changes to other objects. */
  lemma SameStrings(obj0: Heap, obj1: Heap, strt: seq<seq<Ref>>, hash: string -> nat)
    requires Interned(obj0, strt, hash)
    requires forall x :: x in obj0 && obj0[x].Str? ==> x in obj1 && obj1[x] == obj0[x]
    requires forall x :: x in obj1 && obj1[x].Str? ==> x in obj0 && obj1[x] == obj0[x]
    ensures Interned(obj1, strt, hash)
  {
    hide Bucket;
  }

  lemma FreedUpvalSafe(s: Snap, t: Ref, i: nat)
    requires Listed(s) && Safe(s) && FreeableUpval(s, t, i)
    requires Extends(FreedUpval(s, t, i).obj, s.obj, s.obj[t].openupval[i])
    ensures Safe(FreedUpval(s, t, i))
  {
    hide RootList, UvList, Interned, OpenOk, Extends;
    ShrinkSafe(s, FreedUpval(s, t, i).obj, s.obj[t].openupval[i]);
  }

  lemma FreedUpvalPhase(s: Snap, t: Ref, i: nat)
    requires Listed(s) && PhaseOk(s, {}) && Sweeping(s) && FreeableUpval(s, t, i)
    requires s.obj[t].openupval[i] in s.obj && IsOpen(s.obj[s.obj[t].openupval[i]])
    ensures PhaseOk(FreedUpval(s, t, i), {})
  {
    hide RootList, UvList, OpenOk;
    var s' := FreedUpval(s, t, i);
    assert forall y :: Behind(s', y) ==> Behind(s, y);
  }

  // ---- Closing an upvalue ------------------------------------------------------------------

  /** luaF_close on the first upvalue of t's list, up to the barrier: it keeps its value, leaves
      the open lists and is linked at the head of rootgc with colour c. */
  function ClosedUpval(s: Snap, t: Ref, c: Colour): Snap
    requires t in s.obj && s.obj[t].Thread? && s.obj[t].openupval != []
  {
    var u := s.obj[t].openupval[0];
    s.(obj := Unlinked(s.obj, t, 0)[u := UpVal(Closed(SlotOf(s.obj, t, u)))], col := s.col[u := c],
       uvhead := Remove(s.uvhead, u), rootgc := [u] + s.rootgc, sweepgc := Shift(s.sweepgc))
  }

  /** The stack slot an open upvalue of t reads. */
  function SlotOf(obj: Heap, t: Ref, u: Ref): Value
    requires t in obj && obj[t].Thread?
  {
    if u in obj && IsOpen(obj[u]) && obj[u].cell.level < |obj[t].stack| then obj[t].stack[obj[u].cell.level]
    else Plain(0)
  }

  /** The colour luaC_linkupval leaves: gray turns black while marking and white while sweeping. */
  function CloseColour(s: Snap, c: Colour): Colour {
    if c.White? then c else if s.phase == Propagate then Black else White(s.cw)
  }

  ghost predicate Closeable(s: Snap, t: Ref) {
    && t in s.obj && s.obj[t].Thread? && s.obj[t].openupval != []
    && var u := s.obj[t].openupval[0];
       u in s.obj && IsOpen(s.obj[u]) && s.obj[u].cell.thread == t && s.obj[u].cell.level < |s.obj[t].stack|
       && u in Live(s.col, s.cw)
  }

  lemma CloseableFirst(s: Snap, t: Ref)
    requires Listed(s) && t in s.obj && s.obj[t].Thread? && s.obj[t].openupval != []
    ensures var u := s.obj[t].openupval[0];
      u in s.obj && IsOpen(s.obj[u]) && s.obj[u].cell.thread == t && s.obj[u].cell.level < |s.obj[t].stack|
  {
    hide RootList, UvList, Interned;
    assert OpenOk(s.obj, t);
    assert OpenOk(s.obj, s.obj[t].openupval[0]);
  }

  lemma ClosedKeeps(s: Snap, t: Ref)
    requires Inv(s) && Closeable(s, t)
    ensures var u := s.obj[t].openupval[0]; var s' := ClosedUpval(s, t, CloseColour(s, s.col[u]));
      && Listed(s') && Safe(s') && PhaseOk(s', {u})
      && forall y :: y in s.obj ==> y in s'.obj && ValuesOf(s'.obj, y) == ValuesOf(s.obj, y)
  {
    var c := CloseColour(s, s.col[s.obj[t].openupval[0]]);
    assert c != White(!s.cw);
    hide Safe, PhaseOk, RootList, UvList, Interned, OpenOk, Closeable;
    ClosedValues(s, t, c);
    ClosedListed(s, t, c);
    ClosedSafe(s, t, c);
    ClosedPhase(s, t);
  }

  lemma ClosedValues(s: Snap, t: Ref, c: Colour)
    requires Listed(s) && Closeable(s, t)
    ensures ClosedUpval(s, t, c).obj.Keys == s.obj.Keys
    ensures forall y :: y in s.obj ==> ValuesOf(ClosedUpval(s, t, c).obj, y) == ValuesOf(s.obj, y)
  {
    hide RootList, UvList, Interned, OpenOk;
  }

  lemma ClosedListed(s: Snap, t: Ref, c: Colour)
    requires Listed(s) && Closeable(s, t)
    ensures Listed(ClosedUpval(s, t, c))
  {
    hide RootList, UvList, Interned, OpenOk;
    var obj := ClosedUpval(s, t, c).obj;
    ClosedLists(s, t, c);
    forall y | y in obj ensures OpenOk(obj, y) {
      assert OpenOk(s.obj, y);
      assert OpenOk(s.obj, t);
      ClosedOk(s, t, c, y);
    }
  }

  lemma ClosedOk(s: Snap, t: Ref, c: Colour, y: Ref)
    requires Closeable(s, t) && OpenOk(s.obj, t) && y in s.obj && OpenOk(s.obj, y)
    ensures OpenOk(ClosedUpval(s, t, c).obj, y)
  {
    hide NoDup, Remove, SlotOf;
    var us := s.obj[t].openupval;
    var obj := ClosedUpval(s, t, c).obj;
    assert obj[t].openupval == us[1..];
    if y == t {
      assert Descending(obj, t, us[1..]);
    } else if s.obj[y].Thread? {
      DescendingFrame(s.obj, obj, y, s.obj[y].openupval);
    } else if y != us[0] && IsOpen(s.obj[y]) && s.obj[y].cell.thread == t {
      assert us == [us[0]] + us[1..];
    }
  }

  lemma DescendingFrame(obj: Heap, obj1: Heap, t: Ref, us: seq<Ref>)
    requires Descending(obj, t, us)
    requires forall x :: x in obj && IsOpen(obj[x]) && obj[x].cell.thread == t ==> x in obj1 && obj1[x] == obj[x]
    ensures Descending(obj1, t, us)
  {
  }

  lemma ClosedLists(s: Snap, t: Ref, c: Colour)
    requires Listed(s) && Closeable(s, t)
    ensures RootList(ClosedUpval(s, t, c).obj, ClosedUpval(s, t, c).rootgc)
    ensures UvList(ClosedUpval(s, t, c).obj, ClosedUpval(s, t, c).uvhead)
    ensures Interned(ClosedUpval(s, t, c).obj, s.strt, s.hash)
  {
    hide OpenOk, NoDup, Without, UvList, RootList;
    ClosedUvList(s, t, c);
    ClosedRootList(s, t, c);
    SameStrings(s.obj, ClosedUpval(s, t, c).obj, s.strt, s.hash);
  }

  lemma ClosedUvList(s: Snap, t: Ref, c: Colour)
    requires Listed(s) && Closeable(s, t)
    ensures UvList(ClosedUpval(s, t, c).obj, ClosedUpval(s, t, c).uvhead)
  {
    hide OpenOk, NoDup, Without, Interned, RootList;
    RemoveMembers(s.uvhead, s.obj[t].openupval[0]);
  }

  lemma ClosedRootList(s: Snap, t: Ref, c: Colour)
    requires Listed(s) && Closeable(s, t)
    ensures RootList(ClosedUpval(s, t, c).obj, ClosedUpval(s, t, c).rootgc)
  {
    hide OpenOk, NoDup, Without, Interned, UvList;
    LinkNoDup(s.rootgc, s.obj[t].openupval[0]);
  }

  lemma ClosedSafe(s: Snap, t: Ref, c: Colour)
    requires Listed(s) && Safe(s) && Closeable(s, t) && c != White(!s.cw)
    requires ClosedUpval(s, t, c).obj.Keys == s.obj.Keys
    requires forall y :: y in s.obj ==> ValuesOf(ClosedUpval(s, t, c).obj, y) == ValuesOf(s.obj, y)
    ensures Safe(ClosedUpval(s, t, c))
  {
    hide RootList, UvList, Interned, OpenOk;
    var s' := ClosedUpval(s, t, c);
    assert Live(s'.col, s.cw) == Live(s.col, s.cw);
    forall y, z | y in Live(s.col, s.cw) && Edge(s'.obj, y, z) ensures z in Live(s.col, s.cw) {
      assert Edge(s.obj, y, z);
    }
  }

  lemma ClosedColoured(s: Snap, t: Ref)
    requires Listed(s) && InPropagate(s, {}) && Closeable(s, t) && s.phase == Propagate
    ensures var u := s.obj[t].openupval[0]; var s' := ClosedUpval(s, t, CloseColour(s, s.col[u]));
      Coloured(s'.obj, s'.col, s.gray, s.grayagain, {})
  {
    hide RootList, UvList, Interned, OpenOk, NoDup, Front, Without, Remove, ColourOk;
    var u := s.obj[t].openupval[0];
    var s' := ClosedUpval(s, t, CloseColour(s, s.col[u]));
    forall x | x in s'.obj ensures ColourOk(s'.obj[x], s'.col[x], x in s.gray || x in s.grayagain, false) {
      ClosedColour(s, t, x);
    }
  }

  lemma ClosedColour(s: Snap, t: Ref, x: Ref)
    requires Closeable(s, t) && s.phase == Propagate && s.obj.Keys == s.col.Keys && x in s.obj
    requires forall y :: y in s.obj ==> ColourOk(s.obj[y], s.col[y], y in s.gray || y in s.grayagain, false)
    ensures var u := s.obj[t].openupval[0]; var s' := ClosedUpval(s, t, CloseColour(s, s.col[u]));
      x in s'.obj && x in s'.col && ColourOk(s'.obj[x], s'.col[x], x in s.gray || x in s.grayagain, false)
  {
    hide Without, Remove, Live;
    var u := s.obj[t].openupval[0];
    assert ColourOk(s.obj[x], s.col[x], x in s.gray || x in s.grayagain, false);
    assert ColourOk(s.obj[u], s.col[u], u in s.gray || u in s.grayagain, false);
    assert ColourOk(s.obj[t], s.col[t], t in s.gray || t in s.grayagain, false);
  }

  lemma ClosedFront(s: Snap, t: Ref)
    requires Listed(s) && InPropagate(s, {}) && Closeable(s, t) && s.phase == Propagate
    ensures var u := s.obj[t].openupval[0]; var s' := ClosedUpval(s, t, CloseColour(s, s.col[u]));
      Front(s'.obj, s'.col, s.gray, Elems(s.grayagain) + OpenUpvals(s'.obj) + {u})
  {
    hide RootList, UvList, Interned, OpenOk, NoDup, Coloured, Remove, Without;
    var u := s.obj[t].openupval[0];
    var s' := ClosedUpval(s, t, CloseColour(s, s.col[u]));
    ClosedValues(s, t, s'.col[u]);
    assert OpenUpvals(s'.obj) == OpenUpvals(s.obj) - {u};
    forall y | Dark(s'.col, y) && y != u && !Settled(s'.obj, s'.col, y)
      ensures y in s.gray || y in Elems(s.grayagain) + OpenUpvals(s'.obj)
    {
      if Settled(s.obj, s.col, y) {
        forall z | Edge(s'.obj, y, z) ensures Dark(s'.col, z) { assert Edge(s.obj, y, z); }
      }
    }
  }

  lemma ClosedSweep(s: Snap, t: Ref)
    requires Listed(s) && Closeable(s, t)
    ensures var u := s.obj[t].openupval[0]; var s' := ClosedUpval(s, t, CloseColour(s, s.col[u]));
      && (s.phase == Sweep && InSweep(s) ==> InSweep(s'))
      && (s.phase == SweepString && InSweepString(s) ==> InSweepString(s'))
  {
    hide UvList, Descending, Without, Remove, RootList;
    var u := s.obj[t].openupval[0];
    var s' := ClosedUpval(s, t, CloseColour(s, s.col[u]));
    if s.phase == Sweep && InSweep(s) {
      assert s'.sweepgc <= |s'.rootgc|;
      forall y | y in s'.obj && (s'.obj[y].Str? || Behind(s', y)) ensures s'.col[y] == White(s.cw) {
        if y != u && !s.obj[y].Str? {
          ShiftBehind(s.rootgc, s.sweepgc, u, if y in s'.rootgc[..s'.sweepgc] then y else s.obj[y].cell.thread);
          assert OpenOk(s.obj, y);
        }
        if y == u && !s.col[u].White? { assert s'.col[u] == White(s.cw); }
      }
    }
  }

  lemma ClosedPhase(s: Snap, t: Ref)
    requires Listed(s) && PhaseOk(s, {}) && Closeable(s, t)
    ensures var u := s.obj[t].openupval[0]; PhaseOk(ClosedUpval(s, t, CloseColour(s, s.col[u])), {u})
  {
    hide UvList, Interned, OpenOk, RootList, InSweep, InSweepString, Coloured, Front;
    match s.phase
    case Propagate =>
      ClosedColoured(s, t);
      ClosedFront(s, t);
    case Sweep => ClosedSweep(s, t);
    case SweepString => ClosedSweep(s, t);
    case _ =>
  }

  // ---- The steps of the mark phase ---------------------------------------------------------

  /** One marking call in a sequence of them that began with the colours c. */
  lemma MarkStep(obj: Heap, c: Colours, c0: Colours, g0: seq<Ref>, c1: Colours, g1: seq<Ref>, extra: set<Ref>)
    requires Marks(c, c0) && Front(obj, c0, g0, extra) && Advanced(obj, c0, g0, c1, g1)
    ensures Marks(c, c1) && Front(obj, c1, g1, extra)
    ensures forall x :: Dark(c0, x) ==> Dark(c1, x)
  {
    FrontAdvance(obj, c0, g0, c1, g1, extra);
  }

  lemma RootsStay(c0: Colours, c1: Colours, vs: seq<Value>)
    requires Marks(c0, c1) && AllDark(c0, vs)
    ensures AllDark(c1, vs)
  {
  }

  /** What markroot marks: the main thread, its globals, the registry and the basic metatables. */
  function RootValues(obj: Heap, main: Ref, registry: Ref, mt: seq<Value>): seq<Value>
    requires main in obj && obj[main].Thread?
  {
    [Gc(main), obj[main].globals, Gc(registry)] + mt
  }

  lemma StartClean(s: Snap, bound: set<Ref>)
    requires Inv(s) && (s.phase == Pause || s.phase == Finalize)
    requires ClosedUnder(s.obj, bound) && bound <= s.obj.Keys && Roots(s) <= bound
    ensures Coloured(s.obj, s.col, [], [], {}) && Bounded(s.obj, s.col, bound) && Front(s.obj, s.col, [], {})
    ensures Marks(s.col, s.col) && AllWhite(s.col, s.cw) && s.main in s.obj && s.obj[s.main].Thread?
    ensures var r := RootValues(s.obj, s.main, s.registry, s.mt);
      forall i :: 0 <= i < |r| && r[i].Gc? ==> r[i].ref in bound
  {
    hide RootList, UvList, Interned, OpenOk;
    var g := s.obj[s.main].globals;
    if g.Gc? {
      assert ValuesOf(s.obj, s.main)[0] == g;
      assert Edge(s.obj, s.main, g.ref);
    }
    assert forall i :: 0 <= i < |s.mt| && s.mt[i].Gc? ==> s.mt[i].ref in Refs(s.mt);
  }

  lemma Started(s: Snap, col: Colours, gray: seq<Ref>)
    requires Inv(s) && AllWhite(s.col, s.cw) && Marks(s.col, col)
    requires AllDark(col, RootValues(s.obj, s.main, s.registry, s.mt))
    requires Coloured(s.obj, col, gray, [], {}) && Front(s.obj, col, gray, {})
    ensures Inv(s.(col := col, gray := gray, grayagain := [], phase := Propagate))
  {
    hide RootList, UvList, Interned, OpenOk, Front, Coloured;
    var s' := s.(col := col, gray := gray, grayagain := [], phase := Propagate);
    StartedListed(s, s');
    assert Live(col, s.cw) == s.col.Keys && Live(s.col, s.cw) == s.col.Keys;
    SafeLive(s, s');
    FrontMore(s.obj, col, gray, {}, Elems([]) + OpenUpvals(s.obj) + {});
    var r := RootValues(s.obj, s.main, s.registry, s.mt);
    assert r[0] == Gc(s.main) && r[2] == Gc(s.registry);
  }

  lemma StartedListed(s: Snap, s': Snap)
    requires Listed(s) && Coloured(s'.obj, s'.col, s'.gray, s'.grayagain, {})
    requires s' == s.(col := s'.col, gray := s'.gray, grayagain := s'.grayagain, phase := Propagate)
    ensures Listed(s')
  {
    hide RootList, UvList, Interned, OpenOk, NoDup;
  }

  lemma BeforeAtomic(s: Snap, bound: set<Ref>)
    requires Inv(s) && s.phase == Propagate && s.gray == []
    requires Bounded(s.obj, s.col, bound) && Roots(s) <= bound
    ensures Coloured(s.obj, s.col, s.gray, s.grayagain, {}) && Marks(s.col, s.col)
    ensures Front(s.obj, s.col, s.gray, Elems(s.grayagain) + Elems(s.uvhead))
    ensures forall x :: x in s.uvhead ==> x in s.obj && IsOpen(s.obj[x])
    ensures var r := [Gc(s.running)] + s.mt; forall i :: 0 <= i < |r| && r[i].Gc? ==> r[i].ref in bound
  {
    hide RootList, Interned, OpenOk, Coloured, Bounded;
    assert Elems(s.uvhead) == OpenUpvals(s.obj);
    assert forall i :: 0 <= i < |s.mt| && s.mt[i].Gc? ==> s.mt[i].ref in Refs(s.mt);
  }

  /** grayagain becomes the gray list. */
  lemma GrayAgain(obj: Heap, col: Colours, grayagain: seq<Ref>, extra: set<Ref>)
    requires Coloured(obj, col, [], grayagain, {}) && Front(obj, col, [], extra)
    requires forall x :: x in extra ==> x in grayagain
    ensures Coloured(obj, col, grayagain, [], {}) && Front(obj, col, grayagain, {})
  {
  }

  /** When no gray object is left, the marked objects are closed under references: flipping the
      white makes exactly the unmarked ones dead. */
  lemma AfterAtomic(s: Snap, s': Snap, bound: set<Ref>)
    requires Inv(s) && s.phase == Propagate && Marks(s.col, s'.col)
    requires s' == s.(col := s'.col, gray := s'.gray, grayagain := s'.grayagain, cw := !s.cw, phase := SweepString,
                      sweepstrgc := 0, sweepgc := 0)
    requires Coloured(s'.obj, s'.col, s'.gray, s'.grayagain, {}) && Front(s'.obj, s'.col, [], {})
    requires AllDark(s'.col, [Gc(s.running)] + s.mt) && Bounded(s.obj, s'.col, bound)
    ensures Inv(s') && Live(s'.col, s'.cw) <= bound
  {
    hide Listed, Safe, InPropagate, Coloured, Front, Marks, AllDark, Bounded, Live;
    AllDarkSplit(s'.col, s.running, s.mt);
    AfterLive(s, s', bound);
    AfterSafe(s, s');
    AfterListed(s, s');
    AfterPhase(s');
  }

  lemma AllDarkSplit(col: Colours, x: Ref, vs: seq<Value>)
    requires AllDark(col, [Gc(x)] + vs)
    ensures Dark(col, x) && AllDark(col, vs)
  {
    var r := [Gc(x)] + vs;
    assert r[0] == Gc(x) && forall i :: 0 <= i < |vs| ==> vs[i] == r[i+1];
  }

  lemma AfterLive(s: Snap, s': Snap, bound: set<Ref>)
    requires InPropagate(s, {}) && Marks(s.col, s'.col) && s'.cw == !s.cw && Bounded(s.obj, s'.col, bound)
    ensures forall x :: x in Live(s'.col, s'.cw) <==> Dark(s'.col, x)
    ensures Live(s'.col, s'.cw) <= bound
    ensures Dark(s'.col, s.main) && Dark(s'.col, s.registry)
  {
    hide Coloured, Front;
  }

  lemma AfterListed(s: Snap, s': Snap)
    requires Listed(s) && Coloured(s'.obj, s'.col, s'.gray, s'.grayagain, {})
    requires s' == s.(col := s'.col, gray := s'.gray, grayagain := s'.grayagain, cw := !s.cw, phase := SweepString,
                      sweepstrgc := 0, sweepgc := 0)
    ensures Listed(s')
  {
    hide RootList, UvList, OpenOk, Interned, NoDup;
  }

  lemma AfterPhase(s: Snap)
    requires Listed(s) && s.phase == SweepString && s.sweepstrgc == 0 && s.sweepgc == 0
    ensures PhaseOk(s, {})
  {
  }

  lemma AfterSafe(s: Snap, s': Snap)
    requires forall x :: x in Live(s'.col, s'.cw) <==> Dark(s'.col, x)
    requires Front(s'.obj, s'.col, [], {}) && AllDark(s'.col, s'.mt)
    requires Dark(s'.col, s'.main) && Dark(s'.col, s'.registry) && Dark(s'.col, s'.running)
    ensures Safe(s')
  {
    forall x | x in Refs(s'.mt) ensures Dark(s'.col, x) {
      var i :| 0 <= i < |s'.mt| && s'.mt[i].Gc? && s'.mt[i].ref == x;
    }
    forall x, y | x in Live(s'.col, s'.cw) && Edge(s'.obj, x, y) ensures y in Live(s'.col, s'.cw) {
      assert Settled(s'.obj, s'.col, x);
    }
  }

  // ---- Barriers ----------------------------------------------------------------------------

  /** A store into x that a barrier has still to look at. */
  ghost predicate InvBut(s: Snap, x: Ref) { Listed(s) && Safe(s) && PhaseOk(s, {x}) }

  lemma WriteKeeps(s: Snap, x: Ref, o: Obj)
    requires Inv(s) && Writable(s.obj, x, o)
    requires SlotWise(s, ValuesOf(s.obj, x), ValuesOf(s.obj[x := o], x))
    ensures InvBut(s.(obj := s.obj[x := o]), x)
  {
    hide Listed, Safe, PhaseOk, Writable, SlotWise;
    WriteListed(s, x, o);
    WriteSafe(s, x, o);
    WritePhase(s, x, o);
  }

  /** The barrier has nothing to do, or has done it: x is not black, or all it refers to is marked. */
  lemma BarrierDone(s: Snap, x: Ref)
    requires InvBut(s, x) && x in s.obj
    requires s.phase == Propagate && s.col[x] == Black ==> Settled(s.obj, s.col, x)
    ensures Inv(s)
  {
    hide Safe, RootList, UvList, Interned, OpenOk;
    if s.phase == Propagate {
      hide NoDup;
      assert ColourOk(s.obj[x], s.col[x], x in s.gray || x in s.grayagain, false);
      assert x in s.grayagain ==> x in Elems(s.grayagain);
      assert Front(s.obj, s.col, s.gray, Elems(s.grayagain) + OpenUpvals(s.obj));
      assert Elems(s.grayagain) + OpenUpvals(s.obj) + {} == Elems(s.grayagain) + OpenUpvals(s.obj);
    }
  }

  /** luaC_barrierf in the propagate phase: v was marked. */
  lemma BarrierMarked(s: Snap, x: Ref, col: Colours, gray: seq<Ref>)
    requires InvBut(s, x) && x in s.obj && s.phase == Propagate && s.col[x] == Black
    requires Coloured(s.obj, col, gray, s.grayagain, {}) && Advanced(s.obj, s.col, s.gray, col, gray)
    requires Settled(s.obj, col, x)
    ensures Inv(s.(col := col, gray := gray)) && Live(col, s.cw) == Live(s.col, s.cw)
  {
    hide Listed, Safe, Front, Coloured, Advanced, Settled;
    var extra := Elems(s.grayagain) + OpenUpvals(s.obj) + {x};
    FrontAdvance(s.obj, s.col, s.gray, col, gray, extra);
    var s' := s.(col := col, gray := gray);
    BarrierListed(s, col, gray);
    BarrierSafe(s, col, gray);
    assert InvBut(s', x);
    BarrierDone(s', x);
  }

  lemma BarrierListed(s: Snap, col: Colours, gray: seq<Ref>)
    requires Listed(s) && Coloured(s.obj, col, gray, s.grayagain, {})
    ensures Listed(s.(col := col, gray := gray))
  {
    hide RootList, UvList, Interned, OpenOk, NoDup;
  }

  lemma BarrierSafe(s: Snap, col: Colours, gray: seq<Ref>)
    requires Safe(s) && Marks(s.col, col) && forall x :: x in s.col ==> s.col[x] != White(!s.cw)
    ensures Safe(s.(col := col, gray := gray))
    ensures forall x :: x in col ==> col[x] != White(!s.cw)
    ensures Live(col, s.cw) == Live(s.col, s.cw)
  {
    assert Live(col, s.cw) == Live(s.col, s.cw);
  }

  /** What luaC_barrierf may assume to mark v in the propagate phase. */
  lemma BarrierReady(s: Snap, x: Ref)
    requires InvBut(s, x) && s.phase == Propagate
    ensures Coloured(s.obj, s.col, s.gray, s.grayagain, {}) && Bounded(s.obj, s.col, s.obj.Keys)
  {
    hide RootList, UvList, Interned, OpenOk, Front;
    assert Live(s.col, s.cw) == s.obj.Keys;
  }

  /** luaC_barrierf while sweeping: o turns white instead. */
  lemma BarrierSwept(s: Snap, x: Ref)
    requires InvBut(s, x) && x in s.col && s.col[x] == Black && s.phase != Propagate
    ensures Sweeping(s) && x in s.obj
    ensures Inv(s.(col := s.col[x := White(s.cw)]))
    ensures Inv(s.(col := s.col[x := Gray]))
    ensures Live(s.col[x := White(s.cw)], s.cw) == Live(s.col, s.cw)
  {
    assert Live(s.col[x := White(s.cw)], s.cw) == Live(s.col, s.cw);
    assert Sweeping(s) by { assert x in s.col; hide Listed, Safe; }
    assert RefersToLive(s, x);
    hide Listed, Safe, PhaseOk, RefersToLive;
    assert Inv(s) by { SweepNoExc(s, x); }
    RecolourKeeps(s, x, White(s.cw));
    RecolourKeeps(s, x, Gray);
  }

  lemma SweepNoExc(s: Snap, x: Ref)
    requires InvBut(s, x) && s.phase != Propagate
    ensures Inv(s)
  {
    hide Listed, Safe, InPropagate;
  }

  /** luaC_barrierback in the propagate phase: the table is gray again. */
  lemma BarrierBack(s: Snap, x: Ref)
    requires InvBut(s, x) && x in s.obj && x in s.col && s.obj[x].Table? && s.col[x] == Black && s.phase == Propagate
    ensures Inv(s.(col := s.col[x := Gray], grayagain := [x] + s.grayagain))
  {
    hide Listed, Safe, Front, Coloured;
    var s' := s.(col := s.col[x := Gray], grayagain := [x] + s.grayagain);
    BackColoured(s, x);
    BackFront(s, x);
    BackListed(s, x);
  }

  lemma BackColoured(s: Snap, x: Ref)
    requires Coloured(s.obj, s.col, s.gray, s.grayagain, {}) && x in s.obj && s.obj[x].Table? && x in s.col && s.col[x] == Black
    ensures Coloured(s.obj, s.col[x := Gray], s.gray, [x] + s.grayagain, {})
  {
    LinkNoDup(s.grayagain, x);
    hide NoDup;
  }

  lemma BackFront(s: Snap, x: Ref)
    requires Front(s.obj, s.col, s.gray, Elems(s.grayagain) + OpenUpvals(s.obj) + {x}) && Dark(s.col, x)
    ensures Front(s.obj, s.col[x := Gray], s.gray, Elems([x] + s.grayagain) + OpenUpvals(s.obj) + {})
  {
    assert forall y :: Dark(s.col[x := Gray], y) <==> Dark(s.col, y);
  }

  lemma BackListed(s: Snap, x: Ref)
    requires Listed(s) && Safe(s) && x in s.obj && s.col[x] == Black
    ensures Listed(s.(col := s.col[x := Gray], grayagain := [x] + s.grayagain))
    ensures Safe(s.(col := s.col[x := Gray], grayagain := [x] + s.grayagain))
  {
    hide RootList, UvList, Interned, OpenOk;
    assert Live(s.col[x := Gray], s.cw) == Live(s.col, s.cw);
  }

  // ---- Mutator stores ----------------------------------------------------------------------

  function Put(vs: seq<Value>, k: nat, v: Value): seq<Value> {
    if k < |vs| then vs[k := v] else vs + [v]
  }

  predicate HasFields(o: Obj) { o.Table? || o.Function? || o.Proto? }

  /** o after a store at position k, or at a new one. */
  function WithField(o: Obj, k: nat, v: Value): Obj
    requires HasFields(o)
  {
    match o
    case Table(slots) => Table(Put(slots, k, v))
    case Function(links) => Function(Put(links, k, v))
    case Proto(links) => Proto(Put(links, k, v))
  }

  ghost predicate LiveValue(s: Snap, v: Value) { v.Gc? ==> v.ref in Live(s.col, s.cw) }

  /** A black object refers to v or to marked objects only: what a store of v leaves to its barrier. */
  ghost predicate OwesOnly(s: Snap, x: Ref, v: Value) {
    s.phase == Propagate && x in s.col && s.col[x] == Black ==>
      forall y :: Edge(s.obj, x, y) ==> Dark(s.col, y) || Gc(y) == v
  }

  lemma BlackSettled(s: Snap, x: Ref)
    requires Inv(s) && s.phase == Propagate && x in s.obj && s.col[x] == Black
    ensures Settled(s.obj, s.col, x)
  {
    hide Safe, RootList, UvList, Interned, OpenOk, NoDup;
    assert x in s.col && Dark(s.col, x);
    assert ColourOk(s.obj[x], s.col[x], x in s.gray || x in s.grayagain, false);
    assert x !in OpenUpvals(s.obj);
  }

  lemma StoreField(s: Snap, x: Ref, k: nat, v: Value)
    requires Inv(s) && x in s.obj && HasFields(s.obj[x]) && LiveValue(s, v)
    ensures var s' := s.(obj := s.obj[x := WithField(s.obj[x], k, v)]); InvBut(s', x) && OwesOnly(s', x, v)
  {
    hide Listed, Safe, PhaseOk;
    var o := WithField(s.obj[x], k, v);
    assert Writable(s.obj, x, o);
    assert SlotWise(s, ValuesOf(s.obj, x), ValuesOf(s.obj[x := o], x));
    WriteKeeps(s, x, o);
    StoreOwes(s, x, o, v);
  }

  /** A store that adds at most v. */
  lemma StoreOwes(s: Snap, x: Ref, o: Obj, v: Value)
    requires Inv(s) && x in s.obj
    requires forall w :: w in ValuesOf(s.obj[x := o], x) ==> w == v || w in ValuesOf(s.obj, x)
    ensures OwesOnly(s.(obj := s.obj[x := o]), x, v)
  {
    hide Listed, Safe, PhaseOk;
    var obj := s.obj[x := o];
    if s.phase == Propagate && x in s.col && s.col[x] == Black {
      BlackSettled(s, x);
      forall y | Edge(obj, x, y) ensures Dark(s.col, y) || Gc(y) == v {
        if Gc(y) != v { assert Edge(s.obj, x, y); }
      }
    }
  }

  lemma StoreUpval(s: Snap, x: Ref, v: Value)
    requires Inv(s) && x in s.obj && s.obj[x].UpVal? && s.obj[x].cell.Closed? && LiveValue(s, v)
    ensures var s' := s.(obj := s.obj[x := UpVal(Closed(v))]); InvBut(s', x) && OwesOnly(s', x, v)
  {
    hide Listed, Safe, PhaseOk;
    WriteKeeps(s, x, UpVal(Closed(v)));
    StoreOwes(s, x, UpVal(Closed(v)), v);
  }

  /** Threads are never black: stores into a stack need no barrier, whatever the phase. */
  lemma StoreThread(s: Snap, t: Ref, o: Obj)
    requires Inv(s) && Writable(s.obj, t, o) && o.Thread? && s.obj[t].Thread?
    requires SlotWise(s, ValuesOf(s.obj, t), ValuesOf(s.obj[t := o], t))
    ensures Inv(s.(obj := s.obj[t := o]))
  {
    hide Safe, PhaseOk, Writable, SlotWise, RootList, UvList, Interned, OpenOk;
    WriteKeeps(s, t, o);
    BarrierDone(s.(obj := s.obj[t := o]), t);
  }

  lemma BarrierKeys(s: Snap, x: Ref)
    requires InvBut(s, x)
    ensures s.obj.Keys == s.col.Keys
  {
  }

  lemma MarkedOwed(s: Snap, x: Ref, v: Value, col: Colours, gray: seq<Ref>)
    requires OwesOnly(s, x, v) && s.phase == Propagate && x in s.col && s.col[x] == Black
    requires Advanced(s.obj, s.col, s.gray, col, gray) && (v.Gc? ==> Dark(col, v.ref))
    ensures Settled(s.obj, col, x)
  {
    forall y | Edge(s.obj, x, y) ensures Dark(col, y) {
      assert Dark(s.col, y) || Gc(y) == v;
    }
  }

  lemma NothingOwed(s: Snap, x: Ref, v: Value)
    requires OwesOnly(s, x, v) && LiveValue(s, v) && x in s.col
    requires !(v.Gc? && s.col[v.ref].White? && s.col[x] == Black)
    ensures s.phase == Propagate && s.col[x] == Black ==> Settled(s.obj, s.col, x)
  {
  }

  /** Outside the propagate phase nothing depends on grayagain. */
  lemma SweepGrayAgain(s: Snap, grayagain: seq<Ref>)
    requires Inv(s) && Sweeping(s)
    ensures Inv(s.(grayagain := grayagain))
  {
    hide RootList, UvList, Interned, OpenOk, InPropagate;
    var s' := s.(grayagain := grayagain);
    assert forall y :: Behind(s', y) == Behind(s, y);
  }

  // ---- luaF_close and luaF_findupval -------------------------------------------------------

  ghost predicate AtOrAbove(obj: Heap, x: Ref, t: Ref, level: nat) {
    x in obj && IsOpen(obj[x]) && obj[x].cell.thread == t && obj[x].cell.level >= level
  }

  /** s1 arises from s0 by closing some of the upvalues of t at or above level: those found dead
      are freed, the others keep their value; nothing else changes. */
  ghost predicate ClosedFrom(s0: Snap, s1: Snap, t: Ref, level: nat) {
    && t in s0.obj && t in s1.obj && s0.obj[t].Thread? && s1.obj[t].Thread?
    && s1.obj[t].stack == s0.obj[t].stack && s1.obj[t].globals == s0.obj[t].globals
    && s1.obj.Keys <= s0.obj.Keys && Live(s1.col, s1.cw) == Live(s0.col, s0.cw)
    && (forall x :: x in s0.obj && x !in s1.obj ==> AtOrAbove(s0.obj, x, t, level) && x !in Live(s0.col, s0.cw) && x !in s0.fixed)
    && (forall x :: x in s1.obj ==> ValuesOf(s1.obj, x) == ValuesOf(s0.obj, x))
    && (forall x :: x in s1.obj && x != t && s1.obj[x] != s0.obj[x] ==>
          AtOrAbove(s0.obj, x, t, level) && s1.obj[x] == UpVal(Closed(SlotOf(s0.obj, t, x))))
    && (forall x :: x in s1.obj && IsOpen(s1.obj[x]) ==> s1.obj[x] == s0.obj[x])
    && s1.phase == s0.phase && s1.cw == s0.cw && s1.next == s0.next && s1.fixed == s0.fixed && s1.strt == s0.strt
    && SameRootFields(s0, s1) && Roots(s1) == Roots(s0) && Grew(s0, s1)
  }

  /** What the list of all objects looks like after upvalues were linked at its head. */
  ghost predicate Grew(s0: Snap, s1: Snap) {
    && |s1.rootgc| >= |s0.rootgc| && s1.rootgc[|s1.rootgc| - |s0.rootgc|..] == s0.rootgc
    && s1.sweepgc == (if s0.sweepgc == 0 then 0 else s0.sweepgc + |s1.rootgc| - |s0.rootgc|)
    && |s1.rootgc| + |s1.uvhead| <= |s0.rootgc| + |s0.uvhead|
  }

  lemma GrewTrans(s0: Snap, s1: Snap, s2: Snap)
    requires Grew(s0, s1) && Grew(s1, s2)
    ensures Grew(s0, s2)
  {
    assert s2.rootgc[|s2.rootgc| - |s0.rootgc|..] == s2.rootgc[|s2.rootgc| - |s1.rootgc|..][|s1.rootgc| - |s0.rootgc|..];
  }

  lemma ClosedFromRefl(s: Snap, t: Ref, level: nat)
    requires t in s.obj && s.obj[t].Thread?
    ensures ClosedFrom(s, s, t, level)
  {
  }

  lemma ClosedFromTrans(s0: Snap, s1: Snap, s2: Snap, t: Ref, level: nat)
    requires ClosedFrom(s0, s1, t, level) && ClosedFrom(s1, s2, t, level)
    ensures ClosedFrom(s0, s2, t, level)
  {
    hide Live, Roots, ValuesOf, Grew;
    GrewTrans(s0, s1, s2);
    forall x | x in s0.obj && x !in s2.obj ensures AtOrAbove(s0.obj, x, t, level) && x !in Live(s0.col, s0.cw) && x !in s0.fixed {
      if x in s1.obj { assert AtOrAbove(s1.obj, x, t, level); }
    }
    forall x | x in s2.obj && x != t && s2.obj[x] != s0.obj[x]
      ensures AtOrAbove(s0.obj, x, t, level) && s2.obj[x] == UpVal(Closed(SlotOf(s0.obj, t, x)))
    {
      if s2.obj[x] != s1.obj[x] {
        assert AtOrAbove(s1.obj, x, t, level);
        assert IsOpen(s1.obj[x]);
      }
    }
  }

  /** luaF_freeupval on the first upvalue of t, which is dead. */
  lemma FreedFirst(s: Snap, t: Ref, level: nat)
    requires Inv(s) && t in s.obj && s.obj[t].Thread? && s.obj[t].openupval != []
    requires AtOrAbove(s.obj, s.obj[t].openupval[0], t, level) && s.obj[t].openupval[0] !in Live(s.col, s.cw)
    ensures Inv(FreedUpval(s, t, 0)) && ClosedFrom(s, FreedUpval(s, t, 0), t, level)
  {
    hide Safe, RootList, UvList, Interned, OpenOk, PhaseOk, ClosedFrom, Extends;
    var u := s.obj[t].openupval[0];
    DeadMeansSweeping(s, u);
    assert u !in s.fixed;
    FreedUpvalKeeps(s, t, 0);
    FreedUpvalExtends(s, t, 0);
    FreedIsClosed(s, t, level);
  }

  lemma FreedIsClosed(s: Snap, t: Ref, level: nat)
    requires FreeableUpval(s, t, 0) && AtOrAbove(s.obj, s.obj[t].openupval[0], t, level)
    requires Extends(FreedUpval(s, t, 0).obj, s.obj, s.obj[t].openupval[0])
    ensures ClosedFrom(s, FreedUpval(s, t, 0), t, level)
  {
    hide ValuesOf, Remove;
    var u := s.obj[t].openupval[0];
    RemoveLength(s.uvhead, u);
    SameRoots(s, FreedUpval(s, t, 0));
    hide Roots;
    assert Live(s.col - {u}, s.cw) == Live(s.col, s.cw);
  }

  lemma DeadMeansSweeping(s: Snap, x: Ref)
    requires PhaseOk(s, {}) && x in s.col && x !in Live(s.col, s.cw)
    ensures Sweeping(s)
  {
    hide Coloured, Front;
  }

  lemma ClosedFirst(s: Snap, t: Ref, level: nat)
    requires Inv(s) && Closeable(s, t) && AtOrAbove(s.obj, s.obj[t].openupval[0], t, level)
    ensures var u := s.obj[t].openupval[0]; var s' := ClosedUpval(s, t, CloseColour(s, s.col[u]));
      && InvBut(s', u) && ClosedFrom(s, s', t, level) && OwesOnly(s', u, SlotOf(s.obj, t, u))
      && LiveValue(s', SlotOf(s.obj, t, u))
  {
    hide Listed, Safe, PhaseOk, Extends;
    ClosedKeeps(s, t);
    var u := s.obj[t].openupval[0];
    var s' := ClosedUpval(s, t, CloseColour(s, s.col[u]));
    assert ValuesOf(s'.obj, u) == [SlotOf(s.obj, t, u)];
    ClosedLive(s, t);
    ClosedSame(s, t, level);
  }

  lemma ClosedLive(s: Snap, t: Ref)
    requires Safe(s) && Closeable(s, t)
    ensures var u := s.obj[t].openupval[0]; var s' := ClosedUpval(s, t, CloseColour(s, s.col[u]));
      Live(s'.col, s.cw) == Live(s.col, s.cw) && LiveValue(s, SlotOf(s.obj, t, u))
  {
    var u := s.obj[t].openupval[0];
    var v := SlotOf(s.obj, t, u);
    if v.Gc? { assert Edge(s.obj, u, v.ref); }
  }

  lemma ClosedSame(s: Snap, t: Ref, level: nat)
    requires Listed(s) && Closeable(s, t) && AtOrAbove(s.obj, s.obj[t].openupval[0], t, level)
    requires var u := s.obj[t].openupval[0]; var s' := ClosedUpval(s, t, CloseColour(s, s.col[u]));
      && Live(s'.col, s.cw) == Live(s.col, s.cw)
      && forall y :: y in s.obj ==> y in s'.obj && ValuesOf(s'.obj, y) == ValuesOf(s.obj, y)
    ensures var u := s.obj[t].openupval[0]; ClosedFrom(s, ClosedUpval(s, t, CloseColour(s, s.col[u])), t, level)
  {
    hide RootList, UvList, Interned, OpenOk, Live, Roots, Without, Remove;
    var u := s.obj[t].openupval[0];
    var s' := ClosedUpval(s, t, CloseColour(s, s.col[u]));
    assert Roots(s') == Roots(s) by { SameRoots(s, s'); }
    assert u in s.uvhead by { InUvList(s, u); }
    RemoveLength(s.uvhead, u);
  }

  lemma InUvList(s: Snap, u: Ref)
    requires UvList(s.obj, s.uvhead) && u in s.obj && IsOpen(s.obj[u])
    ensures u in s.uvhead
  {
  }

  lemma SameRoots(s: Snap, s': Snap)
    requires s'.main == s.main && s'.running == s.running && s'.registry == s.registry && s'.mt == s.mt
    ensures Roots(s') == Roots(s)
  {
  }

  /** The barrier of luaC_linkupval changes colours only. */
  lemma ClosedThenMarked(s0: Snap, s1: Snap, s2: Snap, t: Ref, level: nat)
    requires ClosedFrom(s0, s1, t, level) && s2 == s1.(col := s2.col, gray := s2.gray)
    requires Live(s2.col, s2.cw) == Live(s1.col, s1.cw)
    ensures ClosedFrom(s0, s2, t, level)
  {
    hide Live, Roots, ValuesOf, SlotOf;
    assert Roots(s2) == Roots(s1) by { SameRoots(s1, s2); }
  }

  /** A dead open upvalue of a live thread refers to live objects: it may be found again. */
  lemma FoundRefersToLive(s: Snap, t: Ref, u: Ref)
    requires Inv(s) && t in Live(s.col, s.cw) && t in s.obj && u in s.obj && IsOpen(s.obj[u]) && s.obj[u].cell.thread == t
    ensures RefersToLive(s, u)
  {
    hide Listed, PhaseOk;
    forall y | Edge(s.obj, u, y) ensures y in Live(s.col, s.cw) {
      assert Gc(y) in ValuesOf(s.obj, t);
      assert Edge(s.obj, t, y);
    }
  }

  /** What a value found in a live object may be used for: it is live itself. */
  lemma ValueIsLive(s: Snap, x: Ref, v: Value)
    requires Safe(s) && x in s.obj && x in Live(s.col, s.cw) && v in ValuesOf(s.obj, x)
    ensures LiveValue(s, v)
  {
    if v.Gc? { assert Edge(s.obj, x, v.ref); }
  }

  lemma RunningIsLive(s: Snap)
    requires Inv(s)
    ensures s.running in s.obj && s.obj[s.running].Thread? && s.running in Live(s.col, s.cw)
    ensures s.obj.Keys == s.col.Keys && Live(s.col, s.cw) <= s.obj.Keys && s.next !in s.obj
    ensures forall v :: v in s.obj[s.running].stack ==> LiveValue(s, v)
    ensures LiveValue(s, s.obj[s.running].globals)
  {
    hide PhaseOk, RootList, UvList, Interned, OpenOk;
    var o := s.obj[s.running];
    forall v | v in o.stack || v == o.globals ensures LiveValue(s, v) {
      assert ([o.globals] + o.stack)[0] == o.globals;
      ValueIsLive(s, s.running, v);
    }
  }

  /** The stack of thread t loses its values from n on, where no upvalue is open, or changes. */
  lemma StackWrite(s: Snap, t: Ref, stack: seq<Value>, globals: Value)
    requires Inv(s) && t in s.obj && s.obj[t].Thread?
    requires forall x :: AtOrAbove(s.obj, x, t, |stack|) ==> false
    requires forall i :: 0 <= i < |stack| ==> LiveValue(s, stack[i]) || (i < |s.obj[t].stack| && stack[i] == s.obj[t].stack[i])
    requires LiveValue(s, globals) || globals == s.obj[t].globals
    ensures Inv(s.(obj := s.obj[t := s.obj[t].(stack := stack, globals := globals)]))
  {
    hide Safe, PhaseOk, RootList, UvList, Interned, LiveValue;
    var o := s.obj[t].(stack := stack, globals := globals);
    assert OpenOk(s.obj, t);
    assert Writable(s.obj, t, o) by {
      var us := o.openupval;
      forall i | 0 <= i < |us| && us[i] in s.obj && IsOpen(s.obj[us[i]]) ensures s.obj[us[i]].cell.level < |o.stack| {
        assert !AtOrAbove(s.obj, us[i], t, |stack|);
      }
    }
    assert SlotWise(s, ValuesOf(s.obj, t), ValuesOf(s.obj[t := o], t)) by { StackSlots(s, t, o); }
    hide Writable, OpenOk, SlotWise;
    StoreThread(s, t, o);
  }

  lemma StackSlots(s: Snap, t: Ref, o: Obj)
    requires t in s.obj && s.obj[t].Thread? && o.Thread?
    requires forall i :: 0 <= i < |o.stack| ==> LiveValue(s, o.stack[i]) || (i < |s.obj[t].stack| && o.stack[i] == s.obj[t].stack[i])
    requires LiveValue(s, o.globals) || o.globals == s.obj[t].globals
    ensures SlotWise(s, ValuesOf(s.obj, t), ValuesOf(s.obj[t := o], t))
  {
    var now := ValuesOf(s.obj[t := o], t);
    forall i | 0 <= i < |now| && now[i].Gc?
      ensures now[i].ref in Live(s.col, s.cw) || (i < |ValuesOf(s.obj, t)| && now[i] == ValuesOf(s.obj, t)[i])
    {
      assert now[i] == if i == 0 then o.globals else o.stack[i-1];
    }
  }

  function LevelOf(obj: Heap, u: Ref): nat {
    if u in obj && IsOpen(obj[u]) then obj[u].cell.level else 0
  }

  lemma FirstUpval(s: Snap, t: Ref, level: nat)
    requires Inv(s) && t in s.obj && s.obj[t].Thread? && s.obj[t].openupval != []
    requires LevelOf(s.obj, s.obj[t].openupval[0]) >= level
    ensures var u := s.obj[t].openupval[0];
      && AtOrAbove(s.obj, u, t, level) && u != t && u in s.col && s.obj.Keys == s.col.Keys && s.col[u] != Black
      && (s.col[u] == White(!s.cw) ==> u !in Live(s.col, s.cw))
      && (s.col[u] != White(!s.cw) ==> Closeable(s, t))
  {
    hide Safe, PhaseOk, RootList, UvList, Interned;
    CloseableFirst(s, t);
  }

  /** The list of t is in descending order: if its first upvalue lies below level, all do. */
  lemma NoneAbove(s: Snap, t: Ref, level: nat)
    requires Inv(s) && t in s.obj && s.obj[t].Thread?
    requires s.obj[t].openupval == [] || LevelOf(s.obj, s.obj[t].openupval[0]) < level
    ensures forall x :: !AtOrAbove(s.obj, x, t, level)
  {
    hide Safe, PhaseOk, RootList, UvList, Interned;
    forall x | x in s.obj && IsOpen(s.obj[x]) && s.obj[x].cell.thread == t ensures s.obj[x].cell.level < level {
      assert OpenOk(s.obj, x);
      assert OpenOk(s.obj, t);
    }
  }

  lemma LiveIn(s: Snap, v: Value)
    requires LiveValue(s, v) && v.Gc?
    ensures v.ref in s.col
  {
  }

  /** The state between unlinking upvalue u of t and linking it again. */
  lemma ClosedLinked(s: Snap, t: Ref, level: nat, s0: Snap)
    requires Inv(s) && Closeable(s, t) && AtOrAbove(s.obj, s.obj[t].openupval[0], t, level) && ClosedFrom(s0, s, t, level)
    ensures var u := s.obj[t].openupval[0]; var s' := ClosedUpval(s, t, CloseColour(s, s.col[u]));
      && InvBut(s', u) && ClosedFrom(s0, s', t, level) && OwesOnly(s', u, SlotOf(s.obj, t, u))
      && LiveValue(s', SlotOf(s.obj, t, u)) && u in s'.obj && u in s'.col
      && s'.obj[u] == UpVal(Closed(SlotOf(s.obj, t, u)))
      && t in s'.obj && s'.obj[t].Thread? && |s'.obj[t].openupval| < |s.obj[t].openupval|
  {
    hide Inv, InvBut, ClosedFrom, OwesOnly, LiveValue, SlotOf;
    ClosedFirst(s, t, level);
    ClosedFromTrans(s0, s, ClosedUpval(s, t, CloseColour(s, s.col[s.obj[t].openupval[0]])), t, level);
  }

  lemma FreedShrinks(s: Snap, t: Ref)
    requires t in s.obj && s.obj[t].Thread? && s.obj[t].openupval != [] && s.obj[t].openupval[0] != t
    ensures var obj := FreedUpval(s, t, 0).obj;
      t in obj && obj[t].Thread? && |obj[t].openupval| < |s.obj[t].openupval|
  {
  }

  // ---- Runs --------------------------------------------------------------------------------

  /** One step of a run: nothing the program could reach before it is freed by it, and addresses
      of new objects were never used before. */
  ghost predicate Evolves(s0: Snap, s1: Snap) {
    && s0.next <= s1.next
    && (forall x :: x in s1.obj ==> x in s0.obj || s0.next <= x)
    && (forall x :: x in s0.obj && x !in s1.obj ==> !Reachable(s0.obj, Roots(s0), x))
  }

  lemma DeadIsUnreachable(s: Snap, x: Ref)
    requires Inv(s) && x !in Live(s.col, s.cw)
    ensures !Reachable(s.obj, Roots(s), x)
  {
    hide Inv, Live;
    if Reachable(s.obj, Roots(s), x) { ReachableIsAlive(s, x); }
  }

  lemma EvolvesTrans(s0: Snap, s1: Snap, s2: Snap)
    requires Inv(s1) && Evolves(s0, s1) && s1.next <= s2.next
    requires forall x :: x in s2.obj ==> x in s1.obj || s1.next <= x
    requires forall x :: x in s1.obj ==> x in s2.obj
    ensures Evolves(s0, s2)
  {
    hide Inv;
  }

  /** A step that frees dead objects only. */
  lemma FreesDead(s0: Snap, s1: Snap)
    requires Inv(s0) && s0.next <= s1.next && forall x :: x in s1.obj ==> x in s0.obj || s0.next <= x
    requires forall x :: x in s0.obj && x !in s1.obj ==> x !in Live(s0.col, s0.cw)
    ensures Evolves(s0, s1)
  {
    hide Inv, Live;
    forall x | x in s0.obj && x !in s1.obj ensures !Reachable(s0.obj, Roots(s0), x) {
      DeadIsUnreachable(s0, x);
    }
  }

  ghost predicate IsRun(trace: seq<Snap>) {
    && |trace| > 0
    && (forall i :: 0 <= i < |trace| ==> Inv(trace[i]))
    && (forall i :: 0 <= i < |trace| - 1 ==> Evolves(trace[i], trace[i+1]))
  }

  /** Over a whole run: an object that has been freed is never reachable again. */
  lemma {:induction false} FreedStaysUnreachable(trace: seq<Snap>, i: nat, j: nat, x: Ref)
    requires IsRun(trace) && i <= j < |trace| && x !in trace[i].obj && x < trace[i].next
    ensures x !in trace[j].obj && x < trace[j].next && !Reachable(trace[j].obj, Roots(trace[j]), x)
    decreases j - i
  {
    hide Inv, Reachable, Roots;
    if i < j {
      assert Evolves(trace[i], trace[i+1]);
      FreedStaysUnreachable(trace, i + 1, j, x);
    } else {
      AllocatedIfReachable(trace[j], x);
    }
  }

  lemma AllocatedIfReachable(s: Snap, x: Ref)
    requires Inv(s) && x !in s.obj
    ensures !Reachable(s.obj, Roots(s), x)
  {
    hide Inv;
    if Reachable(s.obj, Roots(s), x) { ReachableIsAlive(s, x); }
  }

  // ---- Finding and making objects ----------------------------------------------------------

  /** At most one open upvalue per slot. */
  lemma OneUpvalPerSlot(s: Snap, x: Ref, y: Ref)
    requires Inv(s) && x in s.obj && y in s.obj && IsOpen(s.obj[x]) && s.obj[x] == s.obj[y]
    ensures x == y
  {
    hide Safe, PhaseOk, RootList, UvList, Interned;
    var t := s.obj[x].cell.thread;
    assert OpenOk(s.obj, x) && OpenOk(s.obj, y) && OpenOk(s.obj, t);
  }

  lemma ThreadOk(s: Snap, t: Ref)
    requires Inv(s) && t in s.obj && s.obj[t].Thread?
    ensures Descending(s.obj, t, s.obj[t].openupval)
  {
    hide Safe, PhaseOk, RootList, UvList, Interned;
    assert OpenOk(s.obj, t);
  }

  /** luaF_findupval resurrects a dead upvalue. */
  lemma Resurrect(s: Snap, x: Ref)
    requires Inv(s) && x in s.col && s.col[x] == White(!s.cw) && x in s.obj && RefersToLive(s, x)
    ensures Inv(s.(col := s.col[x := White(s.cw)]))
    ensures Live(s.col[x := White(s.cw)], s.cw) == Live(s.col, s.cw) + {x}
  {
    hide Listed, Safe, RefersToLive;
    DeadMeansSweeping(s, x);
    hide PhaseOk;
    RecolourKeeps(s, x, White(s.cw));
  }

  lemma StringBuckets(s: Snap, chars: string)
    requires Inv(s)
    ensures |s.strt| > 0 && s.obj.Keys == s.col.Keys && s.next !in s.obj
    ensures forall x :: x in s.strt[Bucket(s.hash, chars, |s.strt|)] ==> x in s.obj && s.obj[x].Str?
    ensures forall x :: x in s.obj && s.obj[x] == Str(chars) ==> x in s.strt[Bucket(s.hash, chars, |s.strt|)]
  {
    hide Safe, PhaseOk, RootList, UvList, OpenOk;
  }

  /** Strings are unique. */
  lemma OneStringPerContent(s: Snap, x: Ref, y: Ref)
    requires Inv(s) && x in s.obj && y in s.obj && s.obj[x].Str? && s.obj[x] == s.obj[y]
    ensures x == y
  {
    hide Safe, PhaseOk, RootList, UvList, OpenOk;
  }

  lemma OpenMember(s: Snap, t: Ref, us: seq<Ref>, i: nat)
    requires Inv(s) && Descending(s.obj, t, us) && i < |us|
    ensures us[i] in s.obj && us[i] in s.col && IsOpen(s.obj[us[i]]) && s.obj[us[i]].cell.thread == t
  {
    hide Safe, PhaseOk, RootList, UvList, Interned, OpenOk;
  }

  lemma FitsAt(s: Snap, t: Ref, l: nat, k: nat)
    requires t in s.obj && s.obj[t].Thread? && l < |s.obj[t].stack| && k <= |s.obj[t].openupval|
    requires Descending(s.obj, t, s.obj[t].openupval)
    requires forall j :: 0 <= j < k ==> LevelOf(s.obj, s.obj[t].openupval[j]) > l
    requires k == |s.obj[t].openupval| || LevelOf(s.obj, s.obj[t].openupval[k]) < l
    ensures Fits(s.obj, t, l, k)
  {
  }

  lemma FoundUpval(s: Snap, s': Snap, r: Ref)
    requires Inv(s) && Inv(s') && s'.obj == s.obj && s'.next == s.next && s'.cw == s.cw
    requires r in s.obj && IsOpen(s.obj[r])
    requires (s' == s && s.col[r] != White(!s.cw)) || (s'.col == s.col[r := White(s.cw)] && Live(s'.col, s.cw) == Live(s.col, s.cw) + {r})
    ensures Evolves(s, s') && LiveValue(s', Gc(r)) && Live(s.col, s.cw) <= Live(s'.col, s.cw)
    ensures forall x :: x in s.obj && s.obj[x] == s.obj[r] ==> x == r
    ensures forall x :: x in s.obj ==> SameKind(s.obj[x], s.obj[x])
  {
    hide Inv;
    assert r in s.col by { KeysEqual(s); }
    FreesDead(s, s');
    forall x | x in s.obj && s.obj[x] == s.obj[r] ensures x == r { OneUpvalPerSlot(s, x, r); }
  }

  lemma KeysEqual(s: Snap)
    requires Inv(s)
    ensures s.obj.Keys == s.col.Keys && s.next !in s.obj
  {
    hide Safe, PhaseOk, RootList, UvList, Interned, OpenOk;
  }

  lemma MadeUpval(s: Snap, s': Snap, r: Ref)
    requires Inv(s) && Inv(s') && Extends(s.obj, s'.obj, r) && r == s.next && s'.next == r + 1 && s'.cw == s.cw
    requires s'.col == s.col[r := White(s.cw)] && r in s'.obj && IsOpen(s'.obj[r])
    ensures Evolves(s, s') && LiveValue(s', Gc(r)) && Live(s.col, s.cw) <= Live(s'.col, s.cw)
    ensures forall x :: x in s'.obj && s'.obj[x] == s'.obj[r] ==> x == r
    ensures forall x :: x in s.obj ==> x in s'.obj && ValuesOf(s'.obj, x) == ValuesOf(s.obj, x) && SameKind(s.obj[x], s'.obj[x])
  {
    hide Inv;
    KeysEqual(s);
    FreesDead(s, s');
    forall x | x in s'.obj && s'.obj[x] == s'.obj[r] ensures x == r { OneUpvalPerSlot(s', x, r); }
  }

  lemma FoundString(s: Snap, s': Snap, r: Ref)
    requires Inv(s) && Inv(s') && r in s.obj && s.obj[r].Str?
    requires (s' == s && s.col[r] != White(!s.cw)) || (s' == s.(col := s.col[r := White(s.cw)]))
    ensures Evolves(s, s') && LiveValue(s', Gc(r)) && Live(s.col, s.cw) <= Live(s'.col, s.cw)
    ensures forall x :: x in s.obj && s.obj[x] == s.obj[r] ==> x == r
  {
    hide Inv;
    KeysEqual(s);
    FreesDead(s, s');
    forall x | x in s.obj && s.obj[x] == s.obj[r] ensures x == r { OneStringPerContent(s, x, r); }
  }

  lemma MadeObject(s: Snap, s': Snap, r: Ref, o: Obj)
    requires Inv(s) && Inv(s') && r == s.next && s'.next == r + 1 && s'.obj == s.obj[r := o]
    requires s'.col == s.col[r := White(s.cw)] && s'.cw == s.cw
    ensures Evolves(s, s') && LiveValue(s', Gc(r)) && Live(s.col, s.cw) <= Live(s'.col, s.cw) && r !in s.obj
    ensures o.Str? ==> forall x :: x in s'.obj && s'.obj[x] == o ==> x == r
  {
    hide Inv;
    KeysEqual(s);
    FreesDead(s, s');
    if o.Str? {
      forall x | x in s'.obj && s'.obj[x] == o ensures x == r { OneStringPerContent(s', x, r); }
    }
  }

  lemma NoEdges(s: Snap, x: Ref)
    requires x in s.obj && s.obj[x].Str?
    ensures RefersToLive(s, x)
  {
  }

  lemma SameLive(s: Snap, s': Snap, v: Value)
    requires LiveValue(s, v) && s'.col == s.col && s'.cw == s.cw
    ensures LiveValue(s', v)
  {
  }

  lemma OpenSlot(s: Snap, u: Ref)
    requires Inv(s) && u in s.obj && IsOpen(s.obj[u])
    ensures var t := s.obj[u].cell.thread;
      && t in s.obj && s.obj[t].Thread? && s.obj[u].cell.level < |s.obj[t].stack| && u != t
      && forall x :: !AtOrAbove(s.obj, x, t, |s.obj[t].stack|)
  {
    hide Safe, PhaseOk, RootList, UvList, Interned;
    var t := s.obj[u].cell.thread;
    assert OpenOk(s.obj, u);
    forall x | x in s.obj && IsOpen(s.obj[x]) && s.obj[x].cell.thread == t ensures s.obj[x].cell.level < |s.obj[t].stack| {
      assert OpenOk(s.obj, x);
    }
  }

  // ---- Sweeping ----------------------------------------------------------------------------

  /** b is what a may have become: a thread may have lost open upvalues, an open upvalue may have
      been closed. */
  predicate Alike(a: Obj, b: Obj) {
    if a.Thread? then b.Thread? else if IsOpen(a) then b == a || (b.UpVal? && b.cell.Closed?) else b == a
  }

  /** What sweeping has done since s0: dead objects that are not fixed may be gone, the survivors
      refer to what they did. */
  ghost predicate SweptFrom(s0: Snap, s1: Snap) {
    && s1.cw == s0.cw && s1.fixed == s0.fixed && s1.next == s0.next && SameRootFields(s0, s1) && Roots(s1) == Roots(s0)
    && s1.obj.Keys <= s0.obj.Keys
    && (forall x :: x in s0.obj && x !in s1.obj ==> x !in Live(s0.col, s0.cw) && x !in s0.fixed)
    && Live(s0.col, s0.cw) <= Live(s1.col, s1.cw) <= Live(s0.col, s0.cw) + s0.fixed
    && (forall x :: x in s1.obj ==> ValuesOf(s1.obj, x) == ValuesOf(s0.obj, x))
    && (forall x :: x in s1.obj ==> Alike(s0.obj[x], s1.obj[x]))
  }

  lemma SweptRefl(s: Snap)
    ensures SweptFrom(s, s)
  {
  }

  lemma SweptTrans(s0: Snap, s1: Snap, s2: Snap)
    requires SweptFrom(s0, s1) && SweptFrom(s1, s2)
    ensures SweptFrom(s0, s2)
  {
    hide Roots, ValuesOf, Live;
  }

  lemma SweptWhite(s: Snap, x: Ref)
    requires Inv(s) && Sweeping(s) && x in s.obj && (s.col[x] != White(!s.cw) || x in s.fixed)
    ensures var s' := s.(col := s.col[x := White(s.cw)]); Inv(s') && SweptFrom(s, s')
  {
    hide PhaseOk, RootList, UvList, Interned, OpenOk;
    assert RefersToLive(s, x);
    assert x in s.fixed ==> x == s.main || s.obj[x].Str?;
    hide Listed, Safe, RefersToLive;
    RecolourKeeps(s, x, White(s.cw));
    assert Live(s.col[x := White(s.cw)], s.cw) == Live(s.col, s.cw) + {x};
    SameRoots(s, s.(col := s.col[x := White(s.cw)]));
  }

  /** Freeing the dead object x. */
  lemma SweptOne(s: Snap, s': Snap, x: Ref)
    requires Extends(s'.obj, s.obj, x) && x !in Live(s.col, s.cw) && x !in s.fixed
    requires s'.col == s.col - {x} && s'.cw == s.cw && s'.fixed == s.fixed && s'.next == s.next
    requires s'.main == s.main && s'.running == s.running && s'.registry == s.registry && s'.mt == s.mt
    requires forall y :: y in s'.obj && !s.obj[y].Thread? ==> s'.obj[y] == s.obj[y]
    ensures SweptFrom(s, s')
  {
    hide ValuesOf;
    assert Live(s'.col, s.cw) == Live(s.col, s.cw);
    SameRoots(s, s');
    hide Roots;
  }

  lemma SweptUpval(s: Snap, t: Ref, i: nat)
    requires Inv(s) && Sweeping(s) && FreeableUpval(s, t, i)
    ensures Inv(FreedUpval(s, t, i)) && SweptFrom(s, FreedUpval(s, t, i))
    ensures |FreedUpval(s, t, i).uvhead| <= |s.uvhead|
    ensures var us := FreedUpval(s, t, i).obj;
      t in us && us[t].Thread? && us[t].openupval == Without(s.obj[t].openupval, i)
  {
    hide Inv, SweptFrom, Extends, OpenOk;
    FreedUpvalKeeps(s, t, i);
    OpenKnown(s, t);
    FreedUpvalIs(s, t, i);
    FreedUpvalExt(s, t, i);
    RemoveLength(s.uvhead, s.obj[t].openupval[i]);
    SweptOne(s, FreedUpval(s, t, i), s.obj[t].openupval[i]);
  }

  lemma OpenKnown(s: Snap, t: Ref)
    requires Inv(s) && t in s.obj
    ensures OpenOk(s.obj, t)
  {
    hide Safe, PhaseOk, RootList, UvList, Interned;
  }

  lemma FreedUpvalExt(s: Snap, t: Ref, i: nat)
    requires Inv(s) && FreeableUpval(s, t, i)
    requires s.obj[t].openupval[i] in s.obj && IsOpen(s.obj[s.obj[t].openupval[i]])
    ensures Extends(FreedUpval(s, t, i).obj, s.obj, s.obj[t].openupval[i])
  {
    hide Listed, Safe, PhaseOk;
    FreedUpvalExtends(s, t, i);
  }

  lemma SweptString(s: Snap, b: nat, i: nat)
    requires Inv(s) && FreeableStr(s, b, i)
    ensures Inv(FreedStr(s, b, i)) && SweptFrom(s, FreedStr(s, b, i))
  {
    hide Listed, Safe, PhaseOk;
    FreedStrKeeps(s, b, i);
    var x := s.strt[b][i];
    FreedStrExt(s, b, i);
    hide Extends, SweptFrom;
    SweptOne(s, FreedStr(s, b, i), x);
  }

  lemma FreedStrExt(s: Snap, b: nat, i: nat)
    requires Inv(s) && FreeableStr(s, b, i)
    ensures Extends(FreedStr(s, b, i).obj, s.obj, s.strt[b][i])
  {
    hide Safe, PhaseOk, RootList, UvList, OpenOk;
    FreedStrInterned(s, b, i);
    FreedStrExtends(s, b, i);
  }

  lemma SweptRoot(s: Snap, i: nat, x: Ref)
    requires Inv(s) && FreeableRoot(s, i, x)
    ensures Inv(FreedRoot(s, i, x)) && SweptFrom(s, FreedRoot(s, i, x))
  {
    hide Listed, Safe, PhaseOk;
    FreedRootKeeps(s, i, x);
    FreedRootExtends(s, i, x);
    hide Extends, SweptFrom;
    SweptOne(s, FreedRoot(s, i, x), x);
  }

  lemma ClosedIsSwept(s: Snap, s': Snap, t: Ref, level: nat)
    requires ClosedFrom(s, s', t, level)
    ensures SweptFrom(s, s')
  {
    hide Roots, ValuesOf, Live, Grew;
  }

  /** The work left for the sweep of rootgc. */
  function SweepWork(s: Snap): int { |s.rootgc| - s.sweepgc + |s.uvhead| }

  /** The open upvalues of t before position i have been swept. */
  ghost predicate UpvalsWhite(s: Snap, t: Ref, i: nat) {
    && t in s.obj && s.obj[t].Thread? && i <= |s.obj[t].openupval|
    && forall j :: 0 <= j < i ==> s.obj[t].openupval[j] in s.col && s.col[s.obj[t].openupval[j]] == White(s.cw)
  }

  lemma UpvalsWhiteFreed(s: Snap, t: Ref, i: nat)
    requires Inv(s) && FreeableUpval(s, t, i) && UpvalsWhite(s, t, i)
    requires var h := FreedUpval(s, t, i).obj; t in h && h[t].Thread? && h[t].openupval == Without(s.obj[t].openupval, i)
    ensures UpvalsWhite(FreedUpval(s, t, i), t, i)
  {
    hide Inv;
    var us := s.obj[t].openupval;
    ThreadOk(s, t);
    forall j | 0 <= j < i ensures Without(us, i)[j] == us[j] && us[j] != us[i] { }
  }

  lemma SweepFirstCell(s: Snap)
    requires Inv(s) && s.phase == Sweep && s.sweepgc < |s.rootgc|
    ensures s.rootgc[s.sweepgc] in s.obj && s.obj.Keys == s.col.Keys
    ensures OnRootList(s.obj[s.rootgc[s.sweepgc]])
  {
    hide Safe, PhaseOk, UvList, Interned, OpenOk;
    assert s.rootgc[s.sweepgc] in s.rootgc;
  }

  /** The sweep pointer moves past x: it and its open upvalues are white. */
  lemma SweepAdvance(s: Snap, x: Ref)
    requires Inv(s) && s.phase == Sweep && s.sweepgc < |s.rootgc| && x == s.rootgc[s.sweepgc] && x in s.col
    requires s.col[x] == White(s.cw) && (x in s.obj && s.obj[x].Thread? ==> UpvalsWhite(s, x, |s.obj[x].openupval|))
    ensures Inv(s.(sweepgc := s.sweepgc + 1))
  {
    hide Safe, Interned, UvList, RootList;
    var s' := s.(sweepgc := s.sweepgc + 1);
    SafeSame(s, s');
    assert s'.rootgc[..s'.sweepgc] == s.rootgc[..s.sweepgc] + [x];
    forall y | y in s'.obj && y in s'.col && Behind(s', y) ensures s'.col[y] == White(s.cw) {
      if IsOpen(s.obj[y]) && s.obj[y].cell.thread == x {
        assert OpenOk(s.obj, y);
      } else if y != x {
        assert Behind(s, y);
      }
    }
  }

  lemma SweepFinished(s: Snap)
    requires Inv(s) && s.phase == Sweep && s.sweepgc >= |s.rootgc|
    ensures Inv(s.(phase := Finalize)) && AllWhite(s.col, s.cw)
  {
    hide Interned, UvList, Descending, Safe;
    SafeSame(s, s.(phase := Finalize));
    forall x | x in s.col ensures s.col[x] == White(s.cw) {
      assert s.rootgc[..s.sweepgc] == s.rootgc;
      assert OpenOk(s.obj, x);
      if !s.obj[x].Str? { assert Behind(s, x); }
    }
  }

  /** Position i of bucket b: what was swept of the bucket is white. */
  ghost predicate BucketWhite(s: Snap, b: nat, i: nat) {
    && b < |s.strt| && i <= |s.strt[b]|
    && forall j :: 0 <= j < i ==> s.strt[b][j] in s.col && s.col[s.strt[b][j]] == White(s.cw)
  }

  lemma BucketFreed(s: Snap, b: nat, i: nat)
    requires Inv(s) && FreeableStr(s, b, i) && BucketWhite(s, b, i)
    ensures BucketWhite(FreedStr(s, b, i), b, i)
  {
    hide Safe, PhaseOk, RootList, UvList, OpenOk;
    var l := s.strt[b];
    assert NoDup(l);
    var s' := FreedStr(s, b, i);
    assert s'.strt[b] == Without(l, i);
    forall j | 0 <= j < i ensures s'.strt[b][j] in s'.col && s'.col[s'.strt[b][j]] == White(s.cw) {
      assert s'.strt[b][j] == s.strt[b][j] && l[j] != l[i];
    }
  }

  lemma BucketCell(s: Snap, b: nat, i: nat)
    requires Inv(s) && b < |s.strt| && i < |s.strt[b]|
    ensures s.strt[b][i] in s.obj && s.strt[b][i] in s.col
  {
    hide Safe, PhaseOk, RootList, UvList, OpenOk;
    assert s.strt[b][i] in s.strt[b];
  }

  lemma BucketDone(s: Snap)
    requires Inv(s) && s.phase == SweepString && BucketWhite(s, s.sweepstrgc, |s.strt[s.sweepstrgc]|)
    ensures var n := s.sweepstrgc + 1;
      Inv(s.(sweepstrgc := n, phase := if n >= |s.strt| then Sweep else SweepString))
  {
    hide Safe, RootList, UvList, OpenOk;
    var n := s.sweepstrgc + 1;
    var s' := s.(sweepstrgc := n, phase := if n >= |s.strt| then Sweep else SweepString);
    assert Safe(s') by { SafeSame(s, s'); }
    if n >= |s.strt| {
      forall x | x in s.obj && s.obj[x].Str? ensures s.col[x] == White(s.cw) {
        assert x in s.strt[Bucket(s.hash, s.obj[x].chars, |s.strt|)];
      }
      assert s.rootgc[..s.sweepgc] == [];
      assert forall x :: !Behind(s', x);
    }
  }

  lemma SafeSame(s: Snap, s': Snap)
    requires Safe(s) && s'.obj == s.obj && s'.col == s.col && s'.cw == s.cw
    requires s'.main == s.main && s'.running == s.running && s'.registry == s.registry && s'.mt == s.mt
    ensures Safe(s')
  {
  }

  lemma NoUpvals(s: Snap, t: Ref)
    requires t in s.obj && s.obj[t].Thread?
    ensures UpvalsWhite(s, t, 0)
  {
  }

  lemma UpvalsWhiteNext(s: Snap, t: Ref, i: nat, u: Ref)
    requires UpvalsWhite(s, t, i) && i < |s.obj[t].openupval| && u == s.obj[t].openupval[i]
    ensures UpvalsWhite(s.(col := s.col[u := White(s.cw)]), t, i + 1)
  {
  }

  lemma UpvalsStayWhite(s: Snap, x: Ref)
    requires x in s.obj && s.obj[x].Thread? ==> UpvalsWhite(s, x, |s.obj[x].openupval|)
    ensures var s' := s.(col := s.col[x := White(s.cw)]);
      x in s.obj && s.obj[x].Thread? ==> UpvalsWhite(s', x, |s.obj[x].openupval|)
  {
  }

  lemma DeadUpval(s: Snap, t: Ref, i: nat)
    requires t in s.obj && s.obj[t].Thread? && i < |s.obj[t].openupval|
    requires var u := s.obj[t].openupval[i]; u in s.col && s.col[u] == White(!s.cw) && u !in s.fixed
    ensures FreeableUpval(s, t, i)
  {
  }

  lemma WithoutLength(l: seq<Ref>, i: nat)
    requires i < |l|
    ensures |Without(l, i)| == |l| - 1
  {
  }

  lemma SweptPointer(s0: Snap, s: Snap)
    requires SweptFrom(s0, s)
    ensures SweptFrom(s0, s.(sweepgc := s.sweepgc + 1))
  {
    SameRoots(s, s.(sweepgc := s.sweepgc + 1));
    hide Roots;
  }

  lemma NotDead(s: Snap, x: Ref)
    requires Inv(s) && x in s.col && s.col[x] == White(!s.cw)
    ensures x != s.running && x != s.main
  {
    hide Listed, PhaseOk;
    assert s.running in Roots(s) && s.main in Roots(s);
  }

  lemma DeadRoot(s: Snap, x: Ref)
    requires Inv(s) && s.phase == Sweep && s.sweepgc < |s.rootgc| && x == s.rootgc[s.sweepgc]
    requires x in s.obj && x in s.col && s.col[x] == White(!s.cw) && x !in s.fixed && !s.obj[x].Thread?
    ensures FreeableRoot(s, s.sweepgc, x)
  {
    hide Inv;
  }

  lemma ClosedGrew(s: Snap, s1: Snap, t: Ref, level: nat)
    requires ClosedFrom(s, s1, t, level)
    ensures Grew(s, s1) && t in s1.obj && s1.obj[t].Thread? && s1.phase == s.phase && s1.cw == s.cw && s1.fixed == s.fixed
    ensures Live(s1.col, s1.cw) == Live(s.col, s.cw)
  {
  }

  /** luaE_freethread: all upvalues of the dead thread x are closed, it may go. */
  lemma ThreadGone(s: Snap, s1: Snap, x: Ref, i: nat)
    requires s.phase == Sweep && s.sweepgc < |s.rootgc| && x == s.rootgc[s.sweepgc]
    requires x in s.col && s.col[x] == White(!s.cw) && x !in s.fixed
    requires ClosedFrom(s, s1, x, 0) && i + |s.rootgc| == s.sweepgc + |s1.rootgc|
    requires Inv(s1) && forall y :: !AtOrAbove(s1.obj, y, x, 0)
    ensures FreeableRoot(s1, i, x) && SweepWork(s1) <= SweepWork(s)
  {
    hide Inv, Roots, ValuesOf, ClosedFrom;
    ClosedGrew(s, s1, x, 0);
    ThreadOk(s1, x);
    var us := s1.obj[x].openupval;
    assert |us| > 0 ==> AtOrAbove(s1.obj, us[0], x, 0);
    assert us == [];
    var d := |s1.rootgc| - |s.rootgc|;
    assert s1.rootgc[d..][s.sweepgc] == s.rootgc[s.sweepgc];
  }

  // ---- A full collection -------------------------------------------------------------------

  /** One step of the collector. The first component of its work: how many phases are left. */
  function PhaseRank(p: Phase): nat {
    match p case Pause => 0 case Finalize => 1 case Sweep => 2 case SweepString => 3 case Propagate => 4
  }

  ghost function PhaseWork(s: Snap): int {
    match s.phase
    case Propagate => |Whites(s.col)| + |s.gray|
    case SweepString => |s.strt| - s.sweepstrgc
    case Sweep => SweepWork(s)
    case _ => 0
  }

  ghost predicate Progress(s0: Snap, s1: Snap) {
    PhaseRank(s1.phase) < PhaseRank(s0.phase) || (s1.phase == s0.phase && PhaseWork(s1) < PhaseWork(s0))
  }

  /** What a cycle that only marks objects of `bound` has to do with it, phase by phase. */
  ghost predicate Within(s: Snap, bound: set<Ref>) {
    match s.phase
    case Propagate => Bounded(s.obj, s.col, bound) && Roots(s) <= bound
    case _ => Live(s.col, s.cw) <= bound + s.fixed
  }

  ghost predicate SameValues(s0: Snap, s1: Snap) {
    && s1.obj.Keys <= s0.obj.Keys && s1.fixed == s0.fixed && s1.next == s0.next && SameRootFields(s0, s1) && Roots(s1) == Roots(s0)
    && (forall x :: x in s1.obj ==> ValuesOf(s1.obj, x) == ValuesOf(s0.obj, x))
    && forall x :: x in s1.obj ==> Alike(s0.obj[x], s1.obj[x])
  }

  ghost function ReachSet(s: Snap): set<Ref> {
    set x | x in s.obj && Reachable(s.obj, Roots(s), x)
  }

  /** Before a full collection every pending mark is forgotten: nothing is dead then, and the sweep
      that follows frees nothing. */
  lemma Reset(s: Snap)
    requires Inv(s) && (s.phase == Pause || s.phase == Propagate)
    ensures Live(s.col, s.cw) == s.obj.Keys
    ensures Inv(s.(gray := [], grayagain := [], sweepstrgc := 0, sweepgc := 0, phase := SweepString))
  {
    hide RootList, UvList, OpenOk, Coloured, Front;
    var s' := s.(gray := [], grayagain := [], sweepstrgc := 0, sweepgc := 0, phase := SweepString);
    SafeSame(s, s');
  }

  lemma ReachClosed(s: Snap)
    requires Inv(s)
    ensures ClosedUnder(s.obj, ReachSet(s)) && Roots(s) <= ReachSet(s) <= Live(s.col, s.cw)
  {
    hide Inv;
    forall x, y | x in ReachSet(s) && Edge(s.obj, x, y) ensures y in ReachSet(s) {
      ReachableStep(s.obj, Roots(s), x, y);
      ReachableIsAlive(s, y);
    }
    forall x | x in Roots(s) ensures x in ReachSet(s) {
      assert IsPath(s.obj, Roots(s), [x]) && [x][0] == x;
      assert Reachable(s.obj, Roots(s), x);
      ReachableIsAlive(s, x);
    }
    forall x | x in ReachSet(s) ensures x in Live(s.col, s.cw) {
      ReachableIsAlive(s, x);
    }
  }

  /** What could be reached at the call is live as long as values do not change. */
  lemma StillReached(s0: Snap, s1: Snap)
    requires Inv(s0) && Inv(s1) && SameValues(s0, s1)
    ensures ReachSet(s0) <= Live(s1.col, s1.cw) && ReachSet(s0) <= s1.obj.Keys
    ensures ClosedUnder(s1.obj, ReachSet(s0)) && Roots(s1) <= ReachSet(s0)
  {
    hide Inv, ReachSet, Live, Roots, ValuesOf, IsPath, Reachable;
    ReachClosed(s0);
    SafeKnown(s1);
    var r := ReachSet(s0);
    var live := set x | x in r && x in Live(s1.col, s1.cw);
    forall x | x in r ensures x in live {
      ReachedFrom(s0, s1, live, x);
    }
    forall x, y | x in r && Edge(s1.obj, x, y) ensures y in r {
      assert Edge(s0.obj, x, y);
    }
  }

  lemma SafeKnown(s: Snap)
    requires Inv(s)
    ensures Roots(s) <= Live(s.col, s.cw) <= s.obj.Keys && ClosedUnder(s.obj, Live(s.col, s.cw))
  {
    hide PhaseOk, RootList, UvList, Interned, OpenOk;
  }

  lemma ReachedFrom(s0: Snap, s1: Snap, live: set<Ref>, x: Ref)
    requires SameValues(s0, s1) && x in ReachSet(s0)
    requires ClosedUnder(s0.obj, ReachSet(s0)) && Roots(s0) <= ReachSet(s0)
    requires Roots(s1) <= Live(s1.col, s1.cw) <= s1.obj.Keys && ClosedUnder(s1.obj, Live(s1.col, s1.cw))
    requires live == set y | y in ReachSet(s0) && y in Live(s1.col, s1.cw)
    ensures x in live
  {
    hide Live, Roots, ValuesOf;
    forall y, z | y in live && Edge(s0.obj, y, z) ensures z in live {
      assert Edge(s1.obj, y, z);
    }
    var p :| IsPath(s0.obj, Roots(s0), p) && p[|p|-1] == x;
    ReachableStaysIn(s0.obj, Roots(s0), live, p);
  }

  lemma AllAlive(s: Snap)
    requires Inv(s) && (s.phase == Pause || s.phase == Finalize)
    ensures Live(s.col, s.cw) == s.obj.Keys && s.fixed <= s.obj.Keys
  {
    hide Safe, RootList, UvList, Interned, OpenOk;
  }

  /** At the end of a cycle all objects are live: the survivors are the reachable and the fixed ones. */
  lemma Exact(s0: Snap, s1: Snap)
    requires Inv(s0) && Inv(s1) && SameValues(s0, s1) && s1.phase == Pause && Within(s1, ReachSet(s0))
    ensures s1.obj.Keys == ReachSet(s0) + s0.fixed
  {
    hide Inv, ReachSet, ClosedUnder, Live, Roots, ValuesOf;
    StillReached(s0, s1);
    AllAlive(s1);
  }

  lemma StringPhase(s: Snap)
    requires Inv(s) && s.phase == SweepString
    ensures s.sweepstrgc < |s.strt| && BucketWhite(s, s.sweepstrgc, 0)
  {
    hide Listed, Safe;
  }

  lemma BucketNext(s: Snap, b: nat, i: nat, u: Ref)
    requires BucketWhite(s, b, i) && i < |s.strt[b]| && u == s.strt[b][i]
    ensures BucketWhite(s.(col := s.col[u := White(s.cw)]), b, i + 1)
  {
  }

  lemma DeadString(s: Snap, b: nat, i: nat)
    requires s.phase == SweepString && b < |s.strt| && i < |s.strt[b]|
    requires var u := s.strt[b][i]; u in s.col && s.col[u] == White(!s.cw) && u !in s.fixed
    ensures FreeableStr(s, b, i)
  {
  }

  lemma MarkedSame(s: Snap, s': Snap, bound: set<Ref>)
    requires s' == s.(col := s'.col, gray := s'.gray, grayagain := s'.grayagain, phase := Propagate)
    requires Bounded(s'.obj, s'.col, bound) && Roots(s) <= bound
    ensures SameValues(s, s') && Within(s', bound)
  {
    SameRoots(s, s');
    hide Roots, Bounded;
  }

  lemma InMarking(s: Snap)
    requires Inv(s) && s.phase == Propagate
    ensures Coloured(s.obj, s.col, s.gray, s.grayagain, {})
    ensures Front(s.obj, s.col, s.gray, Elems(s.grayagain) + OpenUpvals(s.obj))
    ensures s.gray != [] ==> s.gray[0] in s.obj
  {
    hide Listed, Safe, Front;
    assert Elems(s.grayagain) + OpenUpvals(s.obj) + {} == Elems(s.grayagain) + OpenUpvals(s.obj);
  }

  lemma Propagated(s: Snap, col: Colours, gray: seq<Ref>, grayagain: seq<Ref>, bound: set<Ref>)
    requires Inv(s) && s.phase == Propagate && s.gray != [] && Roots(s) <= bound
    requires Coloured(s.obj, col, gray, grayagain, {}) && Bounded(s.obj, col, bound)
    requires Settled(s.obj, col, s.gray[0]) && Advanced(s.obj, s.col, s.gray[1..], col, gray)
    requires s.gray[0] in s.obj && grayagain == (if s.obj[s.gray[0]].Thread? then [s.gray[0]] else []) + s.grayagain
    ensures var s' := s.(col := col, gray := gray, grayagain := grayagain);
      Inv(s') && SameValues(s, s') && Within(s', bound) && Progress(s, s')
  {
    hide Listed, Safe, Coloured, Front, Advanced, Settled, Bounded, Whites;
    var s' := s.(col := col, gray := gray, grayagain := grayagain);
    InMarking(s);
    var extra := Elems(s.grayagain) + OpenUpvals(s.obj);
    FrontPop(s.obj, s.col, s.gray, col, gray, extra);
    FrontMore(s.obj, col, gray, extra, Elems(grayagain) + OpenUpvals(s.obj) + {});
    MarkedKeeps(s, s');
    SameRoots(s, s');
  }

  lemma FrontMore(obj: Heap, col: Colours, gray: seq<Ref>, extra: set<Ref>, more: set<Ref>)
    requires Front(obj, col, gray, extra) && extra <= more
    ensures Front(obj, col, gray, more)
  {
  }

  lemma MarkedKeeps(s: Snap, s': Snap)
    requires Listed(s) && Safe(s) && InPropagate(s, {}) && Marks(s.col, s'.col)
    requires s' == s.(col := s'.col, gray := s'.gray, grayagain := s'.grayagain)
    requires Coloured(s.obj, s'.col, s'.gray, s'.grayagain, {})
    ensures Listed(s') && Safe(s') && forall x :: x in s'.col ==> s'.col[x] != White(!s.cw)
    ensures Dark(s'.col, s.main) && Dark(s'.col, s.registry)
  {
    hide RootList, UvList, Interned, OpenOk, NoDup, Front;
    assert Live(s'.col, s.cw) == Live(s.col, s.cw);
    SafeLive(s, s');
    hide Safe;
  }

  lemma SafeLive(s: Snap, s': Snap)
    requires Safe(s) && s'.obj == s.obj && Live(s'.col, s'.cw) == Live(s.col, s.cw)
    requires s'.main == s.main && s'.running == s.running && s'.registry == s.registry && s'.mt == s.mt
    ensures Safe(s')
  {
  }

  lemma AtomicSame(s: Snap, s': Snap, bound: set<Ref>)
    requires s' == s.(col := s'.col, gray := s'.gray, grayagain := s'.grayagain, phase := SweepString, cw := s'.cw,
                      sweepstrgc := s'.sweepstrgc, sweepgc := s'.sweepgc)
    requires s.phase == Propagate && Live(s'.col, s'.cw) <= bound
    ensures SameValues(s, s') && Within(s', bound) && Progress(s, s')
  {
    SameRoots(s, s');
    hide Roots;
  }

  lemma StringsSwept(s: Snap, s1: Snap, bound: set<Ref>)
    requires Inv(s1) && SweptFrom(s, s1) && s.phase == SweepString && Within(s, bound)
    requires s1 == s.(obj := s1.obj, col := s1.col, strt := s1.strt) && |s1.strt| == |s.strt|
    requires s1.sweepstrgc < |s1.strt| && BucketWhite(s1, s1.sweepstrgc, |s1.strt[s1.sweepstrgc]|)
    ensures var n := s1.sweepstrgc + 1; var s' := s1.(sweepstrgc := n, phase := if n >= |s1.strt| then Sweep else SweepString);
      && Inv(s') && SameValues(s, s') && Within(s', bound) && Progress(s, s')
      && Live(s.col, s.cw) <= Live(s'.col, s'.cw) && forall x :: x in s.obj && x !in s'.obj ==> x !in Live(s.col, s.cw)
  {
    hide Inv, BucketWhite, Live;
    BucketDone(s1);
    var n := s1.sweepstrgc + 1;
    var s' := s1.(sweepstrgc := n, phase := if n >= |s1.strt| then Sweep else SweepString);
    SameRoots(s1, s');
    hide Roots, ValuesOf;
  }

  lemma CycleEnds(s: Snap, bound: set<Ref>)
    requires Inv(s) && s.phase == Finalize && Within(s, bound)
    ensures var s' := s.(phase := Pause); Inv(s') && SameValues(s, s') && Within(s', bound) && Progress(s, s')
  {
    hide Listed;
    var s' := s.(phase := Pause);
    SameRoots(s, s');
    SafeSame(s, s');
    EndListed(s);
    hide Safe, Roots;
  }

  lemma EndListed(s: Snap)
    requires Listed(s)
    ensures Listed(s.(phase := Pause))
  {
  }

  lemma SweptEnd(s: Snap, s1: Snap, bound: set<Ref>)
    requires Inv(s1) && SweptFrom(s, s1) && s.phase == Sweep && s1.phase == Sweep && Within(s, bound)
    requires s1 == s || SweepWork(s1) < SweepWork(s)
    requires s1.sweepgc >= |s1.rootgc| || SweepWork(s1) < SweepWork(s)
    ensures var s' := if s1.sweepgc >= |s1.rootgc| then s1.(phase := Finalize) else s1;
      && SameValues(s, s') && Within(s', bound) && Progress(s, s')
      && Live(s.col, s.cw) <= Live(s'.col, s'.cw) && forall x :: x in s.obj && x !in s'.obj ==> x !in Live(s.col, s.cw)
  {
    hide Inv, Live;
    SameRoots(s1, s1.(phase := Finalize));
    hide Roots, ValuesOf;
  }

  lemma SameRefl(s: Snap)
    ensures SameValues(s, s)
  {
  }

  lemma SameTrans(s0: Snap, s1: Snap, s2: Snap)
    requires SameValues(s0, s1) && SameValues(s1, s2)
    ensures SameValues(s0, s2)
  {
    hide ValuesOf, Roots;
  }

  lemma ResetSame(s: Snap, s': Snap)
    requires s' == s.(gray := s'.gray, grayagain := s'.grayagain, sweepstrgc := s'.sweepstrgc, sweepgc := s'.sweepgc, phase := s'.phase)
    ensures SameValues(s, s') && Live(s'.col, s'.cw) == Live(s.col, s.cw)
  {
    SameRoots(s, s');
  }

  lemma AnyBound(s: Snap)
    requires s.phase != Propagate
    ensures Within(s, Live(s.col, s.cw))
  {
  }

  lemma FreedNothing(s: Snap, s': Snap, all: set<Ref>)
    requires Inv(s') && SameValues(s, s') && all <= Live(s'.col, s'.cw)
    ensures all == s.obj.Keys ==> s'.obj.Keys == s.obj.Keys
  {
    hide Inv, ValuesOf, Roots, Live;
    SafeKnown(s');
  }

  lemma WorkLeft(s: Snap)
    requires Inv(s)
    ensures PhaseWork(s) >= 0
  {
    hide Listed, Safe;
  }

  // ---- Programs ----------------------------------------------------------------------------

  lemma EvolvesSame(s: Snap, s': Snap)
    requires s'.obj.Keys == s.obj.Keys && s'.next == s.next
    ensures Evolves(s, s')
  {
  }

  /** No upvalue is open above the top of the stack. */
  lemma TopFree(s: Snap, t: Ref, n: nat)
    requires Inv(s) && t in s.obj && s.obj[t].Thread? && n >= |s.obj[t].stack|
    ensures forall x :: !AtOrAbove(s.obj, x, t, n)
  {
    hide Safe, PhaseOk, RootList, UvList, Interned, Descending;
    forall x | x in s.obj && IsOpen(s.obj[x]) && s.obj[x].cell.thread == t ensures s.obj[x].cell.level < n {
      assert OpenOk(s.obj, x);
    }
  }

  lemma FieldIsLive(s: Snap, x: Ref, v: Value)
    requires Inv(s) && LiveValue(s, Gc(x)) && x in s.obj && v in ValuesOf(s.obj, x)
    ensures LiveValue(s, v)
  {
    hide Listed, PhaseOk;
    ValueIsLive(s, x, v);
  }

  /** What every state promises, by field: all values in the fields of a live object are live, and
      what is live is allocated. */
  lemma FieldsAreLive(s: Snap, x: Ref, y: Ref)
    requires Inv(s) && x in s.obj && x in Live(s.col, s.cw)
    requires match s.obj[x]
      case Str(_) => false
      case Table(slots) => Gc(y) in slots
      case Function(links) => Gc(y) in links
      case Proto(links) => Gc(y) in links
      case Thread(globals, stack, _) => globals == Gc(y) || Gc(y) in stack
      case UpVal(Closed(v)) => v == Gc(y)
      case UpVal(Open(t, l)) => t in s.obj && s.obj[t].Thread? && l < |s.obj[t].stack| && s.obj[t].stack[l] == Gc(y)
    ensures y in s.obj && y in Live(s.col, s.cw)
  {
    hide Listed, PhaseOk, ValuesOf;
    EdgeMeaning(s.obj, x, y);
    LiveIsAllocated(s, Gc(y)) by { ValueIsLive(s, x, Gc(y)); }
  }

  lemma LiveIsAllocated(s: Snap, v: Value)
    requires Inv(s) && LiveValue(s, v) && v.Gc?
    ensures v.ref in s.obj
  {
    hide Inv;
    KeysEqual(s);
  }

  /** The running thread and the basic metatables are roots; they may become anything live. */
  lemma RootsChange(s: Snap, running: Ref, mt: seq<Value>)
    requires Inv(s) && running in s.obj && s.obj[running].Thread? && LiveValue(s, Gc(running))
    requires forall v :: v in mt ==> LiveValue(s, v)
    ensures Inv(s.(running := running, mt := mt))
  {
    hide RootList, UvList, Interned, OpenOk, Coloured, Front;
    var s' := s.(running := running, mt := mt);
    forall x | x in Refs(mt) ensures x in Live(s.col, s.cw) {
      var i :| 0 <= i < |mt| && mt[i].Gc? && mt[i].ref == x;
      assert LiveValue(s, mt[i]);
    }
    assert Safe(s');
    if s.phase == Sweep { assert forall y :: Behind(s', y) == Behind(s, y); }
  }

  lemma MtIsLive(s: Snap)
    requires Inv(s)
    ensures forall v :: v in s.mt ==> LiveValue(s, v)
  {
    hide Listed, PhaseOk;
    forall v | v in s.mt && v.Gc? ensures LiveValue(s, v) {
      assert v.ref in Refs(s.mt);
    }
  }

  /** luaS_fix. */
  lemma FixKeeps(s: Snap, x: Ref)
    requires Inv(s) && x in s.obj && s.obj[x].Str?
    ensures Inv(s.(fixed := s.fixed + {x}))
  {
    hide RootList, UvList, Interned, OpenOk, Coloured, Front;
    var s' := s.(fixed := s.fixed + {x});
    SafeSame(s, s');
    if s.phase == Sweep { assert forall y :: Behind(s', y) == Behind(s, y); }
  }

  /** lua_newstate: a main thread with its globals, the registry, and nothing else. */
  lemma FreshState(s: Snap)
    requires s.obj == map[0 := Thread(Gc(1), [], []), 1 := Table([]), 2 := Table([])]
    requires s.col == map[0 := White(s.cw), 1 := White(s.cw), 2 := White(s.cw)]
    requires s.fixed == {0} && s.next == 3 && s.rootgc == [2, 1, 0] && s.uvhead == [] && s.phase == Pause
    requires |s.strt| > 0 && (forall b :: 0 <= b < |s.strt| ==> s.strt[b] == [])
    requires s.main == 0 && s.running == 0 && s.registry == 2 && s.mt == []
    ensures Inv(s)
  {
    hide Safe, RootList, UvList, Interned;
    FreshLists(s);
    FreshSafe(s);
    assert forall x :: x in s.obj ==> x == 0 || x == 1 || x == 2;
    assert OpenOk(s.obj, 0) && OpenOk(s.obj, 1) && OpenOk(s.obj, 2);
    hide OpenOk;
  }

  lemma FreshLists(s: Snap)
    requires s.obj == map[0 := Thread(Gc(1), [], []), 1 := Table([]), 2 := Table([])]
    requires s.rootgc == [2, 1, 0] && s.uvhead == []
    requires |s.strt| > 0 && (forall b :: 0 <= b < |s.strt| ==> s.strt[b] == [])
    ensures RootList(s.obj, s.rootgc) && UvList(s.obj, s.uvhead) && Interned(s.obj, s.strt, s.hash)
  {
  }

  lemma FreshSafe(s: Snap)
    requires s.obj == map[0 := Thread(Gc(1), [], []), 1 := Table([]), 2 := Table([])]
    requires s.col == map[0 := White(s.cw), 1 := White(s.cw), 2 := White(s.cw)]
    requires s.main == 0 && s.running == 0 && s.registry == 2 && s.mt == []
    ensures Safe(s)
  {
    assert Live(s.col, s.cw) == {0, 1, 2} && Roots(s) == {0, 2};
    forall x, y | x in Live(s.col, s.cw) && Edge(s.obj, x, y) ensures y in Live(s.col, s.cw) {
      assert x == 0 && ValuesOf(s.obj, 0) == [Gc(1)];
    }
  }

  lemma RunningValue(s: Snap)
    requires Inv(s)
    ensures LiveValue(s, Gc(s.running)) && LiveValue(s, Gc(s.main)) && s.main in s.obj && s.obj[s.main].Thread?
  {
    hide PhaseOk, RootList, UvList, Interned, OpenOk;
  }

  lemma UpvalSlot(s: Snap, u: Ref)
    requires Inv(s) && u in s.obj && s.obj[u].UpVal?
    ensures match s.obj[u].cell
            case Open(t, _) => t in s.obj && s.obj[t].Thread?
            case Closed(_) => true
  {
    hide Inv;
    if IsOpen(s.obj[u]) { OpenSlot(s, u); }
  }

  lemma StepThenSame(s0: Snap, s1: Snap, s2: Snap)
    requires Inv(s1) && Evolves(s0, s1) && s2.obj.Keys == s1.obj.Keys && s2.next == s1.next
    ensures Evolves(s0, s2)
  {
    hide Inv;
    EvolvesTrans(s0, s1, s2);
  }

  lemma StepThenMore(s0: Snap, s1: Snap, s2: Snap)
    requires Inv(s1) && Evolves(s0, s1) && s1.obj.Keys <= s2.obj.Keys && s1.next <= s2.next
    requires forall x :: x in s2.obj ==> x in s1.obj || s1.next <= x
    ensures Evolves(s0, s2)
  {
    hide Inv;
    EvolvesTrans(s0, s1, s2);
  }

  lemma ClosedEvolves(s: Snap, s1: Snap, t: Ref, level: nat)
    requires Inv(s) && ClosedFrom(s, s1, t, level)
    ensures Evolves(s, s1)
  {
    hide Inv, ValuesOf, Live, Roots, Grew;
    FreesDead(s, s1);
  }

  lemma StepBound(s: Snap, bound: set<Ref>)
    requires Inv(s)
    requires bound == if s.phase == Pause || s.phase == Propagate then s.obj.Keys else Live(s.col, s.cw)
    ensures ClosedUnder(s.obj, bound) && bound <= s.obj.Keys && Roots(s) <= bound
    ensures s.phase != Pause ==> Within(s, bound)
  {
    hide Roots, ClosedUnder, Inv;
    SafeKnown(s);
    KeysEqual(s);
    if s.phase == Pause || s.phase == Propagate { Reset(s); }
    if s.phase == Propagate { assert Bounded(s.obj, s.col, bound); }
  }

  lemma StepEvolves(s: Snap, s1: Snap)
    requires Inv(s) && SameValues(s, s1) && forall x :: x in s.obj && x !in s1.obj ==> x !in Live(s.col, s.cw)
    ensures Evolves(s, s1)
  {
    hide Inv, ValuesOf, Live, Roots;
    FreesDead(s, s1);
  }

  lemma FullEvolves(s: Snap, s1: Snap)
    requires SameValues(s, s1) && s1.obj.Keys == ReachSet(s) + s.fixed
    ensures Evolves(s, s1)
  {
    hide ValuesOf, Roots;
  }
}
