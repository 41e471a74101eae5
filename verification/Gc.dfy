/** The incremental collector of lua/lgc.c and the mutator operations it must survive. */
module Collector {
  import opened LuaHeap
  import opened Marking
  import opened GcState
  import opened Program

  const GCSWEEPMAX := 40

  class GlobalState {
    var obj: Heap
    var col: Colours
    var fixed: set<Ref>
    var next: nat
    var rootgc: seq<Ref>
    var strt: seq<seq<Ref>>
    var uvhead: seq<Ref>
    var gray: seq<Ref>
    var grayagain: seq<Ref>
    var currentwhite: bool
    var gcstate: Phase
    var sweepstrgc: nat
    var sweepgc: nat
    const mainthread: Ref
    var running: Ref
    const registry: Ref
    var mt: seq<Value>
    const hash: string -> nat

    ghost function Here(): Snap
      reads this
    {
      Snap(obj, col, fixed, next, rootgc, strt, uvhead, gray, grayagain, currentwhite, gcstate,
           sweepstrgc, sweepgc, mainthread, running, registry, mt, hash)
    }

    ghost predicate Valid()
      reads this
    {
      Inv(Here())
    }

    method ReallyMarkObject(o: Ref, ghost busy: set<Ref>, ghost bound: set<Ref>)
      requires Coloured(obj, col, gray, grayagain, busy) && o in obj && col[o].White?
      requires forall b :: b in busy ==> Dark(col, b)
      requires Bounded(obj, col, bound) && o in bound
      modifies this`col, this`gray
      ensures Coloured(obj, col, gray, grayagain, busy)
      ensures Advanced(obj, old(col), old(gray), col, gray) && Dark(col, o)
      ensures Bounded(obj, col, bound)
      decreases |Whites(col)|
    {
      hide Coloured, Advanced, Bounded, ClosedUnder, Whites;
      if Container(obj[o]) {
        GrayContainer(obj, col, gray, grayagain, busy, o, bound);
        col := col[o := Gray];
        gray := [o] + gray;
      } else {
        GrayOther(obj, col, gray, grayagain, busy, o, bound);
        col := col[o := Gray];
        if obj[o].UpVal? {
          AdvancedRefl(obj, col, gray);
          var vs := ValuesOf(obj, o);
          if |vs| == 1 && vs[0].Gc? {
            assert Edge(obj, o, vs[0].ref);
            if col[vs[0].ref].White? {
              ReallyMarkObject(vs[0].ref, busy + {o}, bound);
            }
          }
          UpvalDone(obj, old(col), col, old(gray), gray, grayagain, busy, o, bound);
          if obj[o].cell.Closed? {
            col := col[o := Black];
          }
        }
      }
    }

    /** The macros markvalue and markobject. */
    method MarkValue(v: Value, ghost bound: set<Ref>)
      requires Coloured(obj, col, gray, grayagain, {}) && Bounded(obj, col, bound)
      requires v.Gc? ==> v.ref in bound
      modifies this`col, this`gray
      ensures Coloured(obj, col, gray, grayagain, {}) && Bounded(obj, col, bound)
      ensures Advanced(obj, old(col), old(gray), col, gray) && (v.Gc? ==> Dark(col, v.ref))
    {
      if v.Gc? && col[v.ref].White? {
        ReallyMarkObject(v.ref, {}, bound);
      }
    }

    /** markvalue over a vector of values: what every traversal function does. */
    method MarkValues(vs: seq<Value>, ghost bound: set<Ref>)
      requires Coloured(obj, col, gray, grayagain, {}) && Bounded(obj, col, bound)
      requires forall i :: 0 <= i < |vs| && vs[i].Gc? ==> vs[i].ref in bound
      modifies this`col, this`gray
      ensures Coloured(obj, col, gray, grayagain, {}) && Bounded(obj, col, bound)
      ensures Advanced(obj, old(col), old(gray), col, gray) && AllDark(col, vs)
    {
      hide Coloured, Bounded, Advanced;
      AdvancedRefl(obj, col, gray);
      var i := 0;
      while i < |vs|
        invariant 0 <= i <= |vs|
        invariant Coloured(obj, col, gray, grayagain, {}) && Bounded(obj, col, bound)
        invariant Advanced(obj, old(col), old(gray), col, gray)
        invariant forall j :: 0 <= j < i && vs[j].Gc? ==> Dark(col, vs[j].ref)
      {
        ghost var c, g := col, gray;
        MarkValue(vs[i], bound);
        AdvancedTrans(obj, old(col), old(gray), c, g, col, gray);
        i := i + 1;
      }
    }

    /** Traverses the first gray object. */
    method PropagateMark(ghost bound: set<Ref>)
      requires Coloured(obj, col, gray, grayagain, {}) && gray != [] && Bounded(obj, col, bound)
      modifies this`col, this`gray, this`grayagain
      ensures Coloured(obj, col, gray, grayagain, {}) && Bounded(obj, col, bound)
      ensures var o := old(gray[0]);
        && Settled(obj, col, o)
        && grayagain == (if obj[o].Thread? then [o] else []) + old(grayagain)
      ensures Advanced(obj, old(col), old(gray[1..]), col, gray)
    {
      hide Coloured, Bounded, Advanced, Repainted, Settled, AllDark, ValuesOf;
      var o := gray[0];
      PopGray(obj, col, gray, grayagain, bound);
      gray := gray[1..];
      if obj[o].Thread? {
        grayagain := [o] + grayagain;
      } else {
        col := col[o := Black];
      }
      assert grayagain == (if obj[o].Thread? then [o] else []) + old(grayagain);
      ghost var c, g := col, gray;
      MarkValues(ValuesOf(obj, o), bound);
      MarkedIsSettled(obj, col, o);
      Repaint(obj, old(col), c, g, o, col, gray);
    }

    method PropagateAll(ghost extra: set<Ref>, ghost bound: set<Ref>)
      requires Coloured(obj, col, gray, grayagain, {}) && Bounded(obj, col, bound)
      requires Front(obj, col, gray, extra)
      modifies this`col, this`gray, this`grayagain
      ensures Coloured(obj, col, gray, grayagain, {}) && Bounded(obj, col, bound)
      ensures gray == [] && Front(obj, col, [], extra) && Marks(old(col), col)
      ensures forall x :: x in old(grayagain) ==> x in grayagain
    {
      hide Coloured, Bounded, Front, Advanced, Settled;
      while gray != []
        invariant Coloured(obj, col, gray, grayagain, {}) && Bounded(obj, col, bound)
        invariant Front(obj, col, gray, extra) && Marks(old(col), col)
        invariant forall x :: x in old(grayagain) ==> x in grayagain
        decreases |Whites(col)| + |gray|
      {
        ghost var c, g := col, gray;
        PropagateMark(bound);
        FrontPop(obj, c, g, col, gray, extra);
        MarksTrans(old(col), c, col);
      }
    }

    /** Marks again the values of the open upvalues that are marked themselves. */
    method RemarkUpvals(ghost extra: set<Ref>, ghost bound: set<Ref>)
      requires Coloured(obj, col, gray, grayagain, {}) && Bounded(obj, col, bound)
      requires forall x :: x in uvhead ==> x in obj && IsOpen(obj[x])
      requires Front(obj, col, gray, extra + Elems(uvhead))
      modifies this`col, this`gray
      ensures Coloured(obj, col, gray, grayagain, {}) && Bounded(obj, col, bound)
      ensures Front(obj, col, gray, extra) && Marks(old(col), col)
    {
      hide Coloured, Bounded, Front, Advanced;
      var i := 0;
      while i < |uvhead|
        invariant 0 <= i <= |uvhead|
        invariant Coloured(obj, col, gray, grayagain, {}) && Bounded(obj, col, bound)
        invariant Front(obj, col, gray, extra + Elems(uvhead[i..])) && Marks(old(col), col)
      {
        var uv := uvhead[i];
        ghost var c, g := col, gray;
        AdvancedRefl(obj, c, g);
        RemarkReady(obj, col, gray, grayagain, bound, uv);
        if col[uv] == Gray {
          var vs := ValuesOf(obj, uv);
          if |vs| == 1 {
            MarkValue(vs[0], bound);
          }
        }
        FrontRemark(obj, c, g, col, gray, extra, uvhead[i..]);
        assert uvhead[i..][1..] == uvhead[i+1..];
        MarksTrans(old(col), c, col);
        i := i + 1;
      }
      assert extra + Elems(uvhead[i..]) == extra;
    }

    /** Starts a cycle. */
    method MarkRoot(ghost bound: set<Ref>)
      requires Valid() && (gcstate == Pause || gcstate == Finalize)
      requires ClosedUnder(obj, bound) && bound <= obj.Keys && Roots(Here()) <= bound
      modifies this`col, this`gray, this`grayagain, this`gcstate
      ensures Valid() && gcstate == Propagate && Bounded(obj, col, bound)
    {
      hide Inv, Coloured, Front, Advanced, Bounded, Marks, ClosedUnder, Roots, AllDark, AllWhite;
      ghost var s := Here();
      StartClean(s, bound);
      gray, grayagain, gcstate := [], [], Propagate;
      MarkValues(RootValues(obj, mainthread, registry, mt), bound);
      MarkStep(obj, s.col, s.col, [], col, gray, {});
      Started(s, col, gray);
    }

    /** The marking that `atomic` does: open upvalues, the running thread and the basic metatables,
        then everything that was caught by a barrier or is a thread. */
    method MarkAgain(ghost bound: set<Ref>)
      requires Valid() && gcstate == Propagate && gray == []
      requires Bounded(obj, col, bound) && Roots(Here()) <= bound
      modifies this`col, this`gray, this`grayagain
      ensures Coloured(obj, col, gray, grayagain, {}) && Front(obj, col, [], {}) && Marks(old(col), col)
      ensures AllDark(col, [Gc(running)] + mt) && Bounded(obj, col, bound)
    {
      hide Inv, Coloured, Front, Advanced, Bounded, Marks, ClosedUnder, Roots, AllDark, Live;
      ghost var c := col;
      ghost var extra := Elems(grayagain);
      BeforeAtomic(Here(), bound);
      RemarkUpvals(extra, bound);
      ghost var c0 := col;
      PropagateAll(extra, bound);
      MarksTrans(c, c0, col);
      ghost var c1, g1 := col, gray;
      MarkValues([Gc(running)] + mt, bound);
      MarkStep(obj, c, c1, g1, col, gray, extra);
      ghost var c2 := col;
      PropagateAll(extra, bound);
      MarksTrans(c, c2, col);
      RootsStay(c2, col, [Gc(running)] + mt);
      GrayAgain(obj, col, grayagain, extra);
      gray, grayagain := grayagain, [];
      ghost var c3 := col;
      PropagateAll({}, bound);
      MarksTrans(c, c3, col);
      RootsStay(c3, col, [Gc(running)] + mt);
    }

    /** Finishes the mark phase in one step and flips the white. */
    method Atomic(ghost bound: set<Ref>)
      requires Valid() && gcstate == Propagate && gray == []
      requires Bounded(obj, col, bound) && Roots(Here()) <= bound
      modifies this`col, this`gray, this`grayagain, this`gcstate, this`currentwhite, this`sweepstrgc, this`sweepgc
      ensures Valid() && gcstate == SweepString && Bounded(obj, col, bound)
      ensures currentwhite == !old(currentwhite) && Live(col, currentwhite) <= bound
    {
      hide Inv, Coloured, Front, Bounded, Marks, Roots, AllDark, Live;
      ghost var s := Here();
      MarkAgain(bound);
      currentwhite := !currentwhite;
      sweepstrgc, sweepgc, gcstate := 0, 0, SweepString;
      AfterAtomic(s, Here(), bound);
    }

    // ---- Barriers --------------------------------------------------------------------------

    /** luaC_barrier and luaC_objbarrier: after v was stored into o, which is not a table. */
    method BarrierForward(o: Ref, v: Value)
      requires InvBut(Here(), o) && OwesOnly(Here(), o, v) && o in obj && o in col && !obj[o].Table?
      requires LiveValue(Here(), v)
      modifies this`col, this`gray
      ensures Valid() && Live(col, currentwhite) == old(Live(col, currentwhite))
    {
      hide Inv, InvBut, Coloured, Advanced, Bounded, Roots, Live;
      ghost var s := Here();
      if v.Gc? { LiveIn(s, v); }
      if v.Gc? && col[v.ref].White? && col[o] == Black {
        if gcstate == Propagate {
          BarrierReady(s, o);
          assert v.ref in obj by { BarrierKeys(s, o); }
          ReallyMarkObject(v.ref, {}, obj.Keys);
          MarkedOwed(s, o, v, col, gray);
          BarrierMarked(s, o, col, gray);
        } else {
          BarrierSwept(s, o);
          assert gcstate != Finalize && gcstate != Pause;
          col := col[o := White(currentwhite)];
        }
      } else {
        NothingOwed(s, o, v);
        BarrierDone(s, o);
      }
    }

    /** luaC_barriert: after v was stored into the table t. */
    method BarrierTable(t: Ref, v: Value)
      requires InvBut(Here(), t) && OwesOnly(Here(), t, v) && t in obj && t in col && obj[t].Table?
      requires LiveValue(Here(), v)
      modifies this`col, this`grayagain
      ensures Valid() && Live(col, currentwhite) == old(Live(col, currentwhite))
    {
      hide Inv, InvBut, Coloured, Roots;
      assert col[t] == Black ==> Live(col[t := Gray], currentwhite) == Live(col, currentwhite);
      hide Live;
      ghost var s := Here();
      if v.Gc? && col[v.ref].White? && col[t] == Black {
        if gcstate != Propagate {
          BarrierSwept(s, t);
          SweepGrayAgain(s.(col := s.col[t := Gray]), [t] + grayagain);
          assert gcstate != Finalize && gcstate != Pause;
        } else {
          BarrierBack(s, t);
        }
        col := col[t := Gray];
        grayagain := [t] + grayagain;
      } else {
        NothingOwed(s, t, v);
        BarrierDone(s, t);
      }
    }

    // ---- Upvalues --------------------------------------------------------------------------

    /** luaF_close with luaC_linkupval. */
    method CloseUpvals(t: Ref, level: nat)
      requires Valid() && t in obj && obj[t].Thread?
      modifies this`obj, this`col, this`uvhead, this`rootgc, this`sweepgc, this`gray
      ensures Valid() && ClosedFrom(old(Here()), Here(), t, level)
      ensures forall x :: !AtOrAbove(obj, x, t, level)
    {
      hide Inv, InvBut, ClosedFrom, Live, Roots;
      ghost var s := Here();
      ClosedFromRefl(s, t, level);
      while obj[t].openupval != [] && LevelOf(obj, obj[t].openupval[0]) >= level
        invariant Valid() && ClosedFrom(s, Here(), t, level) && t in obj && obj[t].Thread?
        decreases |obj[t].openupval|
      {
        CloseFirst(t, level, s);
      }
      NoneAbove(Here(), t, level);
    }

    method CloseFirst(t: Ref, level: nat, ghost s0: Snap)
      requires Valid() && t in obj && obj[t].Thread? && obj[t].openupval != []
      requires LevelOf(obj, obj[t].openupval[0]) >= level && ClosedFrom(s0, Here(), t, level)
      modifies this`obj, this`col, this`uvhead, this`rootgc, this`sweepgc, this`gray
      ensures Valid() && ClosedFrom(s0, Here(), t, level) && t in obj && obj[t].Thread?
      ensures |obj[t].openupval| < old(|obj[t].openupval|)
    {
      hide Inv, InvBut, ClosedFrom, Live, Roots, Closeable, Without, Remove, OwesOnly, LiveValue, SlotOf;
      ghost var s := Here();
      var u := obj[t].openupval[0];
      FirstUpval(s, t, level);
      if col[u] == White(!currentwhite) {
        FreedFirst(s, t, level);
        ClosedFromTrans(s0, s, FreedUpval(s, t, 0), t, level);
        FreedShrinks(s, t);
        obj := Unlinked(obj, t, 0) - {u};
        col := col - {u};
        uvhead := Remove(uvhead, u);
      } else {
        ClosedLinked(s, t, level, s0);
        var v := SlotOf(obj, t, u);
        obj := Unlinked(obj, t, 0)[u := UpVal(Closed(v))];
        uvhead := Remove(uvhead, u);
        LinkUpval(u, v, t, level, s0, ClosedUpval(s, t, CloseColour(s, col[u])));
      }
    }

    /** luaC_linkupval: u was unlinked from the open lists and holds its value v; s' is the state
        its new colour leads to. */
    method LinkUpval(u: Ref, v: Value, ghost t: Ref, ghost level: nat, ghost s0: Snap, ghost s': Snap)
      requires u in col && col[u] != Black && u in obj && obj[u] == UpVal(Closed(v))
      requires s' == Here().(col := col[u := CloseColour(Here(), col[u])], rootgc := [u] + rootgc, sweepgc := Shift(sweepgc))
      requires InvBut(s', u) && ClosedFrom(s0, s', t, level) && OwesOnly(s', u, v) && LiveValue(s', v)
      modifies this`col, this`rootgc, this`sweepgc, this`gray
      ensures Valid() && ClosedFrom(s0, Here(), t, level)
    {
      hide Inv, InvBut, ClosedFrom, Live, Roots, LiveValue;
      rootgc := [u] + rootgc;
      sweepgc := Shift(sweepgc);
      if col[u] == Gray && gcstate == Propagate {
        col := col[u := Black];
        BarrierForward(u, v);
        ClosedThenMarked(s0, s', Here(), t, level);
      } else {
        if col[u] == Gray { col := col[u := White(currentwhite)]; }
        assert Here() == s' by { assert col == s'.col; }
        NothingOwed(s', u, v);
        BarrierDone(s', u);
      }
    }

    /** luaF_findupval on the running thread: all closures that capture a slot share one upvalue. */
    method FindUpval(level: nat) returns (r: Ref)
      requires Valid() && running in obj && obj[running].Thread? && level < |obj[running].stack|
      modifies this`obj, this`col, this`next, this`uvhead
      ensures Valid() && Evolves(old(Here()), Here())
      ensures r in obj && obj[r] == UpVal(Open(running, level)) && LiveValue(Here(), Gc(r))
      ensures forall x :: x in obj && obj[x] == obj[r] ==> x == r
      ensures obj == old(obj) || (r !in old(obj) && old(next) <= r && OnlyOpened(old(obj), obj, running, level, r))
      ensures forall x :: x in old(obj) ==> x in obj && ValuesOf(obj, x) == ValuesOf(old(obj), x) && SameKind(old(obj)[x], obj[x])
      ensures Live(old(col), currentwhite) <= Live(col, currentwhite)
      ensures col == old(col) || col == old(col)[r := White(currentwhite)]
    {
      hide Inv, Descending, Live, Fits, SameKind, Evolves, ValuesOf;
      ghost var s := Here();
      RunningIsLive(s);
      ThreadOk(s, running);
      var us := obj[running].openupval;
      var i := 0;
      while i < |us| && LevelOf(obj, us[i]) >= level
        invariant 0 <= i <= |us|
        invariant Here() == s && forall j :: 0 <= j < i ==> LevelOf(obj, us[j]) > level
      {
        OpenMember(s, running, us, i);
        if obj[us[i]].cell.level == level {
          r := us[i];
          if col[r] == White(!currentwhite) {
            FoundRefersToLive(s, running, r);
            Resurrect(s, r);
            col := col[r := White(currentwhite)];
          }
          FoundUpval(s, Here(), r);
          return;
        }
        i := i + 1;
      }
      FitsAt(s, running, level, i);
      r := NewUpval(level, i);
    }

    /** The second half of luaF_findupval: a new upvalue at position k of the list. */
    method NewUpval(level: nat, k: nat) returns (r: Ref)
      requires Valid() && Fits(obj, running, level, k) && running in Live(col, currentwhite)
      modifies this`obj, this`col, this`next, this`uvhead
      ensures Valid() && Evolves(old(Here()), Here())
      ensures r in obj && obj[r] == UpVal(Open(running, level)) && LiveValue(Here(), Gc(r))
      ensures forall x :: x in obj && obj[x] == obj[r] ==> x == r
      ensures obj == old(obj) || (r !in old(obj) && old(next) <= r && OnlyOpened(old(obj), obj, running, level, r))
      ensures forall x :: x in old(obj) ==> x in obj && ValuesOf(obj, x) == ValuesOf(old(obj), x) && SameKind(old(obj)[x], obj[x])
      ensures Live(old(col), currentwhite) <= Live(col, currentwhite)
      ensures col == old(col)[r := White(currentwhite)]
    {
      hide Inv, Descending, Live, Extends;
      ghost var s := Here();
      r := next;
      OpenedKeeps(s, r, running, level, k);
      KeysEqual(s);
      var us := obj[running].openupval;
      obj := obj[r := UpVal(Open(running, level))][running := obj[running].(openupval := us[..k] + [r] + us[k..])];
      col := col[r := White(currentwhite)];
      next := next + 1;
      uvhead := [r] + uvhead;
      MadeUpval(s, Here(), r);
    }

    // ---- Allocation ------------------------------------------------------------------------

    /** luaC_link on a new object that is neither a string nor an open upvalue. */
    method NewObject(o: Obj) returns (r: Ref)
      requires Valid() && OnRootList(o) && (o.Thread? ==> o.openupval == [])
      requires InLive(Here(), ValuesOf(obj[next := o], next))
      modifies this`obj, this`col, this`next, this`rootgc, this`sweepgc
      ensures Valid() && Evolves(old(Here()), Here())
      ensures r == old(next) && r !in old(obj) && next == r + 1 && obj == old(obj)[r := o] && LiveValue(Here(), Gc(r))
      ensures Live(old(col), currentwhite) <= Live(col, currentwhite)
      ensures col == old(col)[r := White(currentwhite)]
    {
      hide Inv, InLive, Live, Evolves;
      ghost var s := Here();
      r := next;
      LinkKeeps(s, r, o);
      obj := obj[r := o];
      col := col[r := White(currentwhite)];
      next := next + 1;
      rootgc := [r] + rootgc;
      sweepgc := Shift(sweepgc);
      MadeObject(s, Here(), r, o);
    }

    /** luaS_newlstr: strings are unique, and one that is dead but not yet swept is revived. */
    method NewString(chars: string) returns (r: Ref)
      requires Valid()
      modifies this`obj, this`col, this`next, this`strt
      ensures Valid() && Evolves(old(Here()), Here())
      ensures r in obj && obj == old(obj)[r := Str(chars)] && LiveValue(Here(), Gc(r))
      ensures r == old(next) || (r in old(obj) && old(obj)[r] == Str(chars))
      ensures forall x :: x in obj && obj[x] == Str(chars) ==> x == r
      ensures Live(old(col), currentwhite) <= Live(col, currentwhite)
    {
      hide Inv, Live, Bucket, Evolves;
      ghost var s := Here();
      StringBuckets(s, chars);
      var b := Bucket(hash, chars, |strt|);
      var i := 0;
      while i < |strt[b]|
        invariant 0 <= i <= |strt[b]| && Here() == s
        invariant forall j :: 0 <= j < i ==> obj[strt[b][j]] != Str(chars)
      {
        assert strt[b][i] in strt[b];
        if obj[strt[b][i]].chars == chars {
          r := strt[b][i];
          assert obj[r := Str(chars)] == obj;
          if col[r] == White(!currentwhite) {
            NoEdges(s, r);
            Resurrect(s, r);
            col := col[r := White(currentwhite)];
          }
          FoundString(s, Here(), r);
          return;
        }
        i := i + 1;
      }
      r := next;
      AddedKeeps(s, r, chars);
      obj := obj[r := Str(chars)];
      col := col[r := White(currentwhite)];
      strt := strt[b := [r] + strt[b]];
      next := next + 1;
      MadeObject(s, Here(), r, Str(chars));
    }

    // ---- Stores ----------------------------------------------------------------------------

    /** The stack and the globals of the running thread change: no barrier, whatever its colour. */
    method SetFrame(stack: seq<Value>, globals: Value)
      requires Valid() && running in obj && obj[running].Thread?
      requires forall x :: !AtOrAbove(obj, x, running, |stack|)
      requires forall v :: v in stack ==> LiveValue(Here(), v)
      requires LiveValue(Here(), globals)
      modifies this`obj
      ensures Valid() && obj == old(obj)[running := old(obj)[running].(stack := stack, globals := globals)]
    {
      hide Inv, LiveValue, AtOrAbove;
      StackWrite(Here(), running, stack, globals);
      obj := obj[running := obj[running].(stack := stack, globals := globals)];
    }

    /** A store into a table, a closure or a prototype, with the barrier that kind of object has. */
    method SetField(x: Ref, k: nat, v: Value)
      requires Valid() && x in obj && HasFields(obj[x]) && LiveValue(Here(), v)
      modifies this`obj, this`col, this`gray, this`grayagain
      ensures Valid() && obj == old(obj)[x := WithField(old(obj)[x], k, v)]
      ensures Live(col, currentwhite) == old(Live(col, currentwhite))
    {
      hide Inv, InvBut, LiveValue, OwesOnly, Live;
      KeysEqual(Here());
      StoreField(Here(), x, k, v);
      obj := obj[x := WithField(obj[x], k, v)];
      assert LiveValue(Here(), v) by { SameLive(old(Here()), Here(), v); }
      if obj[x].Table? {
        BarrierTable(x, v);
      } else {
        BarrierForward(x, v);
      }
    }

    /** OP_SETUPVAL: into the stack slot of an open upvalue, or into a closed one with a barrier. */
    method SetUpval(u: Ref, v: Value)
      requires Valid() && u in obj && obj[u].UpVal? && u in Live(col, currentwhite) && LiveValue(Here(), v)
      modifies this`obj, this`col, this`gray
      ensures Valid() && ValuesOf(obj, u) == [v]
      ensures obj == match old(obj)[u].cell
                     case Closed(_) => old(obj)[u := UpVal(Closed(v))]
                     case Open(t, l) => old(obj)[t := old(obj)[t].(stack := old(obj)[t].stack[l := v])]
      ensures match old(obj)[u].cell case Open(t, l) => t in old(obj) && old(obj)[t].Thread? && l < |old(obj)[t].stack| case Closed(_) => true
    {
      hide Inv, InvBut, LiveValue, OwesOnly, AtOrAbove;
      KeysEqual(Here());
      match obj[u].cell {
        case Closed(_) =>
          StoreUpval(Here(), u, v);
          obj := obj[u := UpVal(Closed(v))];
          assert LiveValue(Here(), v) by { SameLive(old(Here()), Here(), v); }
          BarrierForward(u, v);
        case Open(t, l) =>
          OpenSlot(Here(), u);
          StackWrite(Here(), t, obj[t].stack[l := v], obj[t].globals);
          obj := obj[t := obj[t].(stack := obj[t].stack[l := v])];
      }
    }

    // ---- Sweeping --------------------------------------------------------------------------

    /** sweepwholelist on the open upvalues of a thread. */
    method SweepOpen(t: Ref, ghost s0: Snap)
      requires Valid() && gcstate == Sweep && t in obj && obj[t].Thread? && SweptFrom(s0, Here())
      modifies this`obj, this`col, this`uvhead
      ensures Valid() && SweptFrom(s0, Here()) && |uvhead| <= |old(uvhead)|
      ensures t in obj && obj[t].Thread? && UpvalsWhite(Here(), t, |obj[t].openupval|)
    {
      hide Inv, SweptFrom, UpvalsWhite, Without, Remove, Live;
      var i := 0;
      assert UpvalsWhite(Here(), t, 0) by { NoUpvals(Here(), t); }
      while i < |obj[t].openupval|
        invariant Valid() && SweptFrom(s0, Here()) && |uvhead| <= |old(uvhead)|
        invariant t in obj && obj[t].Thread? && i <= |obj[t].openupval| && UpvalsWhite(Here(), t, i)
        decreases |obj[t].openupval| - i
      {
        ghost var s := Here();
        var u := obj[t].openupval[i];
        ThreadOk(s, t);
        OpenMember(s, t, obj[t].openupval, i);
        if col[u] != White(!currentwhite) || u in fixed {
          SweptWhite(s, u);
          col := col[u := White(currentwhite)];
          SweptTrans(s0, s, Here());
          UpvalsWhiteNext(s, t, i, u);
          i := i + 1;
        } else {
          DeadUpval(s, t, i);
          SweptUpval(s, t, i);
          UpvalsWhiteFreed(s, t, i);
          WithoutLength(obj[t].openupval, i);
          obj := Unlinked(obj, t, i) - {u};
          col := col - {u};
          uvhead := Remove(uvhead, u);
          SweptTrans(s0, s, Here());
        }
      }
    }

    /** One round of sweeplist on rootgc. */
    method SweepRoot(ghost s0: Snap)
      requires Valid() && gcstate == Sweep && sweepgc < |rootgc| && SweptFrom(s0, Here())
      modifies this`obj, this`col, this`uvhead, this`rootgc, this`sweepgc, this`gray
      ensures Valid() && SweptFrom(s0, Here()) && SweepWork(Here()) < old(SweepWork(Here()))
    {
      hide Inv, SweptFrom, UpvalsWhite, Without, Live, ClosedFrom, FreeableRoot;
      var curr := rootgc[sweepgc];
      SweepFirstCell(Here());
      if obj[curr].Thread? {
        SweepOpen(curr, s0);
      }
      ghost var s := Here();
      SweepFirstCell(s);
      if col[curr] != White(!currentwhite) || curr in fixed {
        SweptWhite(s, curr);
        col := col[curr := White(currentwhite)];
        SweptTrans(s0, s, Here());
        UpvalsStayWhite(s, curr);
        SweepAdvance(Here(), curr);
        SweptPointer(s0, Here());
        sweepgc := sweepgc + 1;
      } else {
        FreeRoot(curr, s0);
      }
    }

    /** The object under the sweep pointer is dead: freeobj. */
    method FreeRoot(curr: Ref, ghost s0: Snap)
      requires Valid() && gcstate == Sweep && sweepgc < |rootgc| && SweptFrom(s0, Here())
      requires curr == rootgc[sweepgc] && curr in obj && curr in col && col[curr] == White(!currentwhite) && curr !in fixed
      modifies this`obj, this`col, this`uvhead, this`rootgc, this`sweepgc, this`gray
      ensures Valid() && SweptFrom(s0, Here()) && SweepWork(Here()) < old(SweepWork(Here()))
    {
      hide Inv, SweptFrom, Without, Live, ClosedFrom, AtOrAbove;
      ghost var s := Here();
      assert curr != running && curr != mainthread by { NotDead(s, curr); }
      var n, i := |rootgc|, sweepgc;
      if obj[curr].Thread? {
        CloseUpvals(curr, 0);
        ClosedIsSwept(s, Here(), curr, 0);
        SweptTrans(s0, s, Here());
        ClosedGrew(s, Here(), curr, 0);
        i := i + |rootgc| - n;
        ThreadGone(s, Here(), curr, i);
      } else {
        DeadRoot(s, curr);
      }
      ghost var s1 := Here();
      SweptRoot(s1, i, curr);
      obj := obj - {curr};
      col := col - {curr};
      WithoutLength(rootgc, i);
      rootgc := Without(rootgc, i);
      SweptTrans(s0, s1, Here());
    }

    /** sweepwholelist on one bucket of the string table. */
    method SweepBucket(ghost s0: Snap)
      requires Valid() && gcstate == SweepString && SweptFrom(s0, Here())
      modifies this`obj, this`col, this`strt
      ensures Valid() && SweptFrom(s0, Here()) && |strt| == |old(strt)|
      ensures sweepstrgc < |strt| && BucketWhite(Here(), sweepstrgc, |strt[sweepstrgc]|)
    {
      hide Inv, SweptFrom, BucketWhite, Without, Live;
      StringPhase(Here());
      var b := sweepstrgc;
      var i := 0;
      while i < |strt[b]|
        invariant Valid() && SweptFrom(s0, Here()) && b < |strt| && |strt| == |old(strt)|
        invariant i <= |strt[b]| && BucketWhite(Here(), b, i)
        decreases |strt[b]| - i
      {
        ghost var s := Here();
        var u := strt[b][i];
        BucketCell(s, b, i);
        if col[u] != White(!currentwhite) || u in fixed {
          SweptWhite(s, u);
          col := col[u := White(currentwhite)];
          SweptTrans(s0, s, Here());
          BucketNext(s, b, i, u);
          i := i + 1;
        } else {
          DeadString(s, b, i);
          SweptString(s, b, i);
          BucketFreed(s, b, i);
          WithoutLength(strt[b], i);
          obj := obj - {u};
          col := col - {u};
          strt := strt[b := Without(strt[b], i)];
          SweptTrans(s0, s, Here());
        }
      }
    }

    // ---- The steps of the collector --------------------------------------------------------

    /** singlestep. `bound` is a closed set that holds the roots; it bounds what gets marked. */
    method SingleStep(ghost bound: set<Ref>)
      requires Valid()
      requires gcstate == Pause ==> ClosedUnder(obj, bound) && bound <= obj.Keys && Roots(Here()) <= bound
      requires gcstate != Pause ==> Within(Here(), bound)
      modifies this
      ensures Valid() && SameValues(old(Here()), Here()) && Within(Here(), bound)
      ensures old(gcstate) == Pause ==> gcstate == Propagate
      ensures old(gcstate) != Pause ==> Progress(old(Here()), Here())
      ensures forall x :: x in old(obj) && x !in obj ==> x !in old(Live(col, currentwhite))
      ensures old(gcstate) == SweepString || old(gcstate) == Sweep ==>
        (gcstate == SweepString || gcstate == Sweep || gcstate == Finalize) && old(Live(col, currentwhite)) <= Live(col, currentwhite)
    {
      hide Inv, SweptFrom, Within, Live, Roots, ClosedUnder, SameValues, Bounded;
      ghost var s := Here();
      match gcstate {
        case Pause =>
          MarkRoot(bound);
          MarkedSame(s, Here(), bound);
        case Propagate =>
          PropagateStep(bound);
        case SweepString =>
          SweptRefl(s);
          SweepBucket(s);
          StringsSwept(s, Here(), bound);
          sweepstrgc := sweepstrgc + 1;
          if sweepstrgc >= |strt| { gcstate := Sweep; }
        case Sweep =>
          SweepStep(bound);
        case Finalize =>
          CycleEnds(s, bound);
          gcstate := Pause;
      }
    }

    method PropagateStep(ghost bound: set<Ref>)
      requires Valid() && gcstate == Propagate && Within(Here(), bound)
      modifies this`col, this`gray, this`grayagain, this`gcstate, this`currentwhite, this`sweepstrgc, this`sweepgc
      ensures Valid() && SameValues(old(Here()), Here()) && Within(Here(), bound) && Progress(old(Here()), Here())
    {
      hide Inv, Live, Roots, ClosedUnder, SameValues, Bounded, Coloured, Advanced, Front;
      ghost var s := Here();
      if gray != [] {
        InMarking(s);
        PropagateMark(bound);
        Propagated(s, col, gray, grayagain, bound);
      } else {
        Atomic(bound);
        AtomicSame(s, Here(), bound);
      }
    }

    /** sweeplist(g->sweepgc, GCSWEEPMAX). */
    method SweepStep(ghost bound: set<Ref>)
      requires Valid() && gcstate == Sweep && Within(Here(), bound)
      modifies this`obj, this`col, this`uvhead, this`rootgc, this`sweepgc, this`gray, this`gcstate
      ensures Valid() && SameValues(old(Here()), Here()) && Within(Here(), bound) && Progress(old(Here()), Here())
      ensures forall x :: x in old(obj) && x !in obj ==> x !in old(Live(col, currentwhite))
      ensures gcstate == Sweep || gcstate == Finalize
      ensures old(Live(col, currentwhite)) <= Live(col, currentwhite)
    {
      hide Inv, SweptFrom, Within, Live, Roots, SameValues;
      ghost var s := Here();
      SweptRefl(s);
      var n := 0;
      while sweepgc < |rootgc| && n < GCSWEEPMAX
        invariant Valid() && gcstate == Sweep && SweptFrom(s, Here())
        invariant n == 0 ==> Here() == s
        invariant n > 0 ==> SweepWork(Here()) < SweepWork(s)
        decreases GCSWEEPMAX - n
      {
        SweepRoot(s);
        n := n + 1;
      }
      SweptEnd(s, Here(), bound);
      if sweepgc >= |rootgc| {
        SweepFinished(Here());
        gcstate := Finalize;
      }
    }

    /** luaC_fullgc: afterwards exactly the objects reachable at the call and the fixed ones are left. */
    method FullGc()
      requires Valid()
      modifies this
      ensures Valid() && gcstate == Pause && SameValues(old(Here()), Here())
      ensures obj.Keys == ReachSet(old(Here())) + old(fixed)
    {
      hide Inv, Within, Live, Roots, ClosedUnder, SameValues, Bounded, ReachSet, PhaseWork;
      ghost var s := Here();
      FinishSweep();
      ghost var r := ReachSet(s);
      ghost var s1 := Here();
      StillReached(s, s1);
      MarkRoot(r);
      MarkedSame(s1, Here(), r);
      SameTrans(s, s1, Here());
      while gcstate != Pause
        invariant Valid() && SameValues(s, Here()) && Within(Here(), r)
        decreases PhaseRank(gcstate), PhaseWork(Here())
      {
        s1 := Here();
        WorkLeft(s1);
        SingleStep(r);
        SameTrans(s, s1, Here());
      }
      Exact(s, Here());
    }

    /** The first half of luaC_fullgc: the sweep that was pending or, without one, a sweep that was
        not preceded by a flip of the white and frees nothing. */
    method FinishSweep()
      requires Valid()
      modifies this
      ensures Valid() && gcstate == Finalize && SameValues(old(Here()), Here())
      ensures old(gcstate) == Pause || old(gcstate) == Propagate ==> obj.Keys == old(obj.Keys)
    {
      hide Inv, Within, Live, Roots, ClosedUnder, SameValues, Bounded, PhaseWork;
      ghost var s := Here();
      SameRefl(s);
      if gcstate == Pause || gcstate == Propagate {
        Reset(s);
        gray, grayagain, sweepstrgc, sweepgc, gcstate := [], [], 0, 0, SweepString;
        ResetSame(s, Here());
      }
      ghost var all := Live(col, currentwhite);
      while gcstate != Finalize
        invariant Valid() && SameValues(s, Here()) && gcstate != Pause && gcstate != Propagate
        invariant all <= Live(col, currentwhite)
        decreases PhaseRank(gcstate), PhaseWork(Here())
      {
        ghost var s1 := Here();
        ghost var bound := Live(col, currentwhite);
        AnyBound(s1);
        WorkLeft(s1);
        SingleStep(bound);
        SameTrans(s, s1, Here());
      }
      FreedNothing(s, Here(), all);
    }

    // ---- Programs --------------------------------------------------------------------------

    constructor (hash: string -> nat, size: nat)
      requires size > 0
      ensures Valid() && gcstate == Pause && strt == seq(size, _ => [])
    {
      obj := map[0 := Thread(Gc(1), [], []), 1 := Table([]), 2 := Table([])];
      col := map[0 := White(false), 1 := White(false), 2 := White(false)];
      fixed, next, rootgc, uvhead, gray, grayagain := {0}, 3, [2, 1, 0], [], [], [];
      strt := seq(size, _ => []);
      currentwhite, gcstate, sweepstrgc, sweepgc := false, Pause, 0, 0;
      mainthread, running, registry, mt, this.hash := 0, 0, 2, [], hash;
      new;
      FreshState(Here());
    }

    /** The value in a register of the running thread. */
    method Reg(i: nat) returns (v: Value)
      requires Valid()
      ensures LiveValue(Here(), v) && (v.Gc? ==> v.ref in obj)
      ensures ThreadRuns(Here()) && v == Register(Here(), i)
    {
      hide Inv, Live;
      RunningIsLive(Here());
      var stack := obj[running].stack;
      v := Plain(0);
      if i < |stack| {
        v := stack[i];
        assert v in stack;
        if v.Gc? { LiveIsAllocated(Here(), v); }
      }
    }

    method Push(v: Value)
      requires Valid() && LiveValue(Here(), v)
      modifies this`obj
      ensures Valid() && ThreadRuns(old(Here())) && Pushes(old(Here()), Here(), v)
    {
      hide Inv, LiveValue, AtOrAbove;
      RunningIsLive(Here());
      TopFree(Here(), running, |obj[running].stack| + 1);
      SetFrame(obj[running].stack + [v], obj[running].globals);
    }

    /** Any action, the collector's included, keeps the invariant, frees nothing reachable, and does
        what is said of it. */
    method Execute(a: Action)
      requires Valid()
      modifies this
      ensures Valid() && Evolves(old(Here()), Here()) && Effect(a, old(Here()), Here())
    {
      hide Inv, Evolves, Live;
      match a {
        case CollectorStep => Collect();
        case FullCollection => CollectFully();
        case LoadPlain(n) => Load(Plain(n));
        case Copy(src) =>
          var v := Reg(src);
          Load(v);
        case Move(dst, src) => MoveReg(dst, src);
        case Return(first) => PopTo(first);
        case MakeString(chars) => PushString(chars);
        case MakeTable => PushObject(Table([]));
        case MakeProto => PushObject(Proto([]));
        case MakeThread => PushThread();
        case MakeClosure(enclosing, proto, captured) => PushClosure(enclosing, proto, captured);
        case SetIndex(x, k, src) => StoreIndex(x, k, src);
        case GetIndex(x, k) => LoadIndex(x, k);
        case SetUpvalue(f, k, src) => StoreUpvalue(f, k, src);
        case GetUpvalue(f, k) => LoadUpvalue(f, k);
        case SetBasicMetatable(k, src) => StoreMt(k, src);
        case SetGlobals(src) => StoreGlobals(src);
        case Resume(src) => Switch(src);
        case ToMainThread => SwitchToMain();
        case FixString(src) => Fix(src);
      }
    }

    /** Every run, of any length and any interleaving: each state keeps the invariant, no step frees
        anything the program could reach, and each has its effect. */
    method Run(schedule: seq<Action>) returns (ghost trace: seq<Snap>)
      requires Valid()
      modifies this
      ensures Valid() && |trace| == |schedule| + 1 && trace[0] == old(Here()) && trace[|schedule|] == Here()
      ensures IsRun(trace) && Follows(schedule, trace)
    {
      hide Inv, Evolves, Effect;
      trace := [Here()];
      for i := 0 to |schedule|
        invariant Valid() && |trace| == i + 1 && trace[0] == old(Here()) && trace[i] == Here() && IsRun(trace)
        invariant Follows(schedule[..i], trace)
      {
        Execute(schedule[i]);
        trace := trace + [Here()];
        assert schedule[..i+1] == schedule[..i] + [schedule[i]];
      }
      assert schedule[..|schedule|] == schedule;
    }

    method Collect()
      requires Valid()
      modifies this
      ensures Valid() && Evolves(old(Here()), Here()) && Effect(CollectorStep, old(Here()), Here())
    {
      hide Inv, Live, Roots, Within, SameValues, Progress, ClosedUnder, Effect;
      ghost var s := Here();
      ghost var bound := if gcstate == Pause || gcstate == Propagate then obj.Keys else Live(col, currentwhite);
      StepBound(s, bound);
      SingleStep(bound);
      StepEvolves(s, Here());
      StepCollects(s, Here());
    }

    method CollectFully()
      requires Valid()
      modifies this
      ensures Valid() && Evolves(old(Here()), Here()) && Effect(FullCollection, old(Here()), Here())
    {
      hide Inv, Reachable, Roots, Effect, SameValues;
      ghost var s := Here();
      FullGc();
      FullEvolves(s, Here());
      FullCollects(s, Here());
    }

    method Load(v: Value)
      requires Valid() && LiveValue(Here(), v)
      modifies this`obj
      ensures Valid() && Evolves(old(Here()), Here()) && ThreadRuns(old(Here())) && Pushes(old(Here()), Here(), v)
    {
      hide Inv, LiveValue;
      Push(v);
      EvolvesSame(old(Here()), Here());
    }

    method MoveReg(dst: nat, src: nat)
      requires Valid()
      modifies this`obj
      ensures Valid() && Evolves(old(Here()), Here()) && Effect(Move(dst, src), old(Here()), Here())
    {
      hide Inv, LiveValue, AtOrAbove;
      var v := Reg(src);
      RunningIsLive(Here());
      if dst < |obj[running].stack| {
        TopFree(Here(), running, |obj[running].stack|);
        SetFrame(obj[running].stack[dst := v], obj[running].globals);
      }
      EvolvesSame(old(Here()), Here());
    }

    /** OP_RETURN, OP_CLOSE and the end of a block: upvalues are closed before their slots go. */
    method PopTo(first: nat)
      requires Valid()
      modifies this`obj, this`col, this`uvhead, this`rootgc, this`sweepgc, this`gray
      ensures Valid() && Evolves(old(Here()), Here()) && Effect(Return(first), old(Here()), Here())
    {
      hide Inv, LiveValue, AtOrAbove, Live, ClosedFrom, Evolves, Effect;
      ghost var s := Here();
      RunningIsLive(s);
      CloseUpvals(running, first);
      ghost var s1 := Here();
      RunningIsLive(s1);
      ClosedEvolves(s, s1, running, first);
      ClosedStack(s, s1, running, first);
      if first < |obj[running].stack| {
        SetFrame(obj[running].stack[..first], obj[running].globals);
      }
      StepThenSame(s, s1, Here());
      ReturnEffect(s, s1, Here(), first);
    }

    method PushString(chars: string)
      requires Valid()
      modifies this`obj, this`col, this`next, this`strt
      ensures Valid() && Evolves(old(Here()), Here()) && Effect(MakeString(chars), old(Here()), Here())
    {
      hide Inv, LiveValue, Live, Evolves;
      ghost var s := Here();
      RunningIsLive(s);
      var r := NewString(chars);
      ghost var s1 := Here();
      Push(Gc(r));
      StepThenSame(s, s1, Here());
    }

    method PushObject(o: Obj)
      requires Valid() && (o == Table([]) || o == Proto([]))
      modifies this`obj, this`col, this`next, this`rootgc, this`sweepgc
      ensures Valid() && Evolves(old(Here()), Here()) && ThreadRuns(old(Here())) && Makes(old(Here()), Here(), o)
    {
      hide Inv, LiveValue, Live, Evolves;
      ghost var s := Here();
      RunningIsLive(s);
      var r := NewObject(o);
      ghost var s1 := Here();
      Push(Gc(r));
      StepThenSame(s, s1, Here());
    }

    /** luaE_newthread: the new thread shares the globals. */
    method PushThread()
      requires Valid()
      modifies this`obj, this`col, this`next, this`rootgc, this`sweepgc
      ensures Valid() && Evolves(old(Here()), Here()) && Effect(MakeThread, old(Here()), Here())
    {
      hide Inv, Live, Evolves;
      ghost var s := Here();
      RunningIsLive(s);
      var r := NewObject(Thread(obj[running].globals, [], []));
      ghost var s1 := Here();
      Push(Gc(r));
      StepThenSame(s, s1, Here());
    }

    /** OP_CLOSURE: the new closure shares the environment of the enclosing one, and takes its upvalues
        from registers or from the enclosing closure. It is white all the time, so that the stores into
        it need no barrier. */
    method PushClosure(enclosing: nat, proto: nat, captured: seq<Captured>)
      requires Valid()
      modifies this`obj, this`col, this`next, this`rootgc, this`sweepgc, this`uvhead
      ensures Valid() && Evolves(old(Here()), Here()) && Effect(MakeClosure(enclosing, proto, captured), old(Here()), Here())
    {
      hide Inv, Live, Evolves, LiveValue, InLive, ValuesOf, Roots, ClosureMade, OthersStay, Exists, UpvalueOf, EnvironmentOf, Effect, Captures;
      ghost var s := Here();
      EvolvesSame(s, s);
      var p := Reg(proto);
      var env := Environment(enclosing);
      var all := AllExist(enclosing, captured);
      ClosureEffect(s, enclosing, proto, captured);
      if p.Gc? && obj[p.ref].Proto? && all {
        NewClosureLive(s, env, p);
        var r := NewObject(Function([env, p]));
        ghost var s1 := Here();
        ClosureBegun(s, s1, env, p);
        Capture(r, enclosing, captured, s);
        ghost var s2 := Here();
        StepThenMore(s, s1, s2);
        Push(Gc(r));
        StepThenSame(s, s2, Here());
        ClosureDone(s, s2, Here(), enclosing, proto, captured);
      }
    }

    /** Everything that is to be captured is there. */
    method AllExist(enclosing: nat, captured: seq<Captured>) returns (all: bool)
      requires Valid()
      ensures ThreadRuns(Here()) && (all <==> forall c :: c in captured ==> Exists(Here(), enclosing, c))
    {
      hide Inv, UpvalueOf, LiveValue;
      RunningIsLive(Here());
      for j := 0 to |captured|
        invariant forall c :: c in captured[..j] ==> Exists(Here(), enclosing, c)
      {
        var there;
        match captured[j] {
          case Slot(level) => there := level < |obj[running].stack|;
          case Outer(k) =>
            var u;
            there, u := UpvalOf(enclosing, k);
        }
        assert there == Exists(Here(), enclosing, captured[j]);
        if !there { return false; }
      }
      return true;
    }

    /** cl->env, or the globals of the running thread where there is no closure. */
    method Environment(enclosing: nat) returns (env: Value)
      requires Valid()
      ensures ThreadRuns(Here()) && env == EnvironmentOf(Here(), enclosing) && LiveValue(Here(), env)
    {
      hide Inv, Live;
      RunningIsLive(Here());
      env := obj[running].globals;
      var cl := Reg(enclosing);
      if cl.Gc? && obj[cl.ref].Function? && obj[cl.ref].links != [] {
        env := obj[cl.ref].links[0];
        FieldIsLive(Here(), cl.ref, env);
      }
    }

    /** A new closure that no barrier needs to watch, made since s. */
    ghost predicate NewClosure(r: Ref, s: Snap)
      reads this
      requires ThreadRuns(s)
    {
      && r in obj && obj[r].Function? && LiveValue(Here(), Gc(r)) && r in col && col[r] == White(currentwhite)
      && r == s.next && r !in s.obj && r < next && running == s.running && OthersStay(s, obj, r) && obj[running].stack == s.obj[running].stack
    }

    method Capture(r: Ref, enclosing: nat, captured: seq<Captured>, ghost s: Snap)
      requires Valid() && ThreadRuns(s) && NewClosure(r, s) && |obj[r].links| == 2 && forall c :: c in captured ==> Exists(s, enclosing, c)
      modifies this`obj, this`col, this`next, this`uvhead
      ensures Valid() && NewClosure(r, s) && |obj[r].links| == 2 + |captured| && obj[r].links[..2] == old(obj)[r].links
      ensures forall j :: 0 <= j < |captured| ==> Captures(s, obj, enclosing, captured[j], obj[r].links[j+2])
      ensures old(next) <= next && (forall x :: x in obj ==> x in old(obj) || old(next) <= x) && old(obj.Keys) <= obj.Keys
    {
      hide Inv, Live, Evolves, LiveValue, UpvalueOf, OthersStay, Captures;
      for j := 0 to |captured|
        invariant Valid() && NewClosure(r, s) && |obj[r].links| == 2 + j && obj[r].links[..2] == old(obj)[r].links
        invariant forall i :: 0 <= i < j ==> Captures(s, obj, enclosing, captured[i], obj[r].links[i+2])
        invariant old(next) <= next && (forall x :: x in obj ==> x in old(obj) || old(next) <= x) && old(obj.Keys) <= obj.Keys
      {
        ghost var s1 := Here();
        assert captured[j] in captured && Exists(s, enclosing, captured[j]);
        match captured[j] {
          case Slot(level) => CaptureSlot(r, level, s, enclosing);
          case Outer(k) =>
            var found, u := UpvalOf(enclosing, k);
            UpvalueStays(s, s1, r, enclosing, k);
            StoreNew(r, j + 2, Gc(u), s);
            CapturedOuter(s, s1.obj, obj, r, enclosing, k, u);
        }
        CapturesStay(s, s1.obj, obj, r, enclosing, captured, j);
      }
    }

    method CaptureSlot(r: Ref, level: nat, ghost s: Snap, ghost enclosing: nat)
      requires Valid() && ThreadRuns(s) && NewClosure(r, s) && level < |s.obj[s.running].stack|
      modifies this`obj, this`col, this`next, this`uvhead
      ensures Valid() && NewClosure(r, s) && CapturedOne(s, old(obj), obj, r, enclosing, Slot(level))
      ensures old(next) <= next && (forall x :: x in obj ==> x in old(obj) || old(next) <= x) && old(obj.Keys) <= obj.Keys
    {
      hide Inv, Live, ValuesOf, OthersStay;
      StackHolds(s, Here(), r);
      var u := FindUpval(level);
      ghost var obj1 := obj;
      OpenedStays(s, old(obj), obj, r, level, u);
      StoreNew(r, |obj[r].links|, Gc(u), s);
      SlotCaptured(s, old(obj), obj1, obj, r, enclosing, level, u);
    }

    /** A store into a new closure, without a barrier. */
    method StoreNew(r: Ref, k: nat, v: Value, ghost s: Snap)
      requires Valid() && ThreadRuns(s) && NewClosure(r, s) && LiveValue(Here(), v) && k == |obj[r].links|
      modifies this`obj
      ensures Valid() && NewClosure(r, s) && obj == old(obj)[r := Function(old(obj)[r].links + [v])]
    {
      hide Inv, InvBut, LiveValue, OwesOnly, Live, OthersStay;
      StoreStays(s, obj, r, Function(obj[r].links + [v]));
      StoreField(Here(), r, k, v);
      obj := obj[r := WithField(obj[r], k, v)];
      SameLive(old(Here()), Here(), v);
      SameLive(old(Here()), Here(), Gc(r));
      NothingOwed(Here(), r, v);
      BarrierDone(Here(), r);
    }

    /** t[k] := v, setfenv, or a constant of a prototype being built. */
    method StoreIndex(x: nat, k: nat, src: nat)
      requires Valid()
      modifies this`obj, this`col, this`gray, this`grayagain
      ensures Valid() && Evolves(old(Here()), Here()) && Effect(SetIndex(x, k, src), old(Here()), Here())
    {
      hide Inv, LiveValue, Live;
      var t := Reg(x);
      var v := Reg(src);
      if t.Gc? && HasFields(obj[t.ref]) {
        SetField(t.ref, k, v);
      }
      EvolvesSame(old(Here()), Here());
    }

    method LoadIndex(x: nat, k: nat)
      requires Valid()
      modifies this`obj
      ensures Valid() && Evolves(old(Here()), Here()) && Effect(GetIndex(x, k), old(Here()), Here())
    {
      hide Inv, LiveValue, Evolves;
      EvolvesSame(Here(), Here());
      var t := Reg(x);
      if t.Gc? && HasFields(obj[t.ref]) && k < |ValuesOf(obj, t.ref)| {
        var v := ValuesOf(obj, t.ref)[k];
        FieldIsLive(Here(), t.ref, v);
        Load(v);
      }
    }

    /** Upvalue k of the closure in register f, if there is one. */
    method UpvalOf(f: nat, k: nat) returns (found: bool, u: Ref)
      requires Valid()
      ensures ThreadRuns(Here()) && UpvalueOf(Here(), f, k) == if found then Some(u) else None
      ensures found ==> u in obj && obj[u].UpVal? && LiveValue(Here(), Gc(u))
    {
      hide Inv, LiveValue;
      var c := Reg(f);
      found, u := false, 0;
      if c.Gc? && obj[c.ref].Function? && k < |obj[c.ref].links| && obj[c.ref].links[k].Gc? {
        u := obj[c.ref].links[k].ref;
        FieldIsLive(Here(), c.ref, Gc(u));
        LiveIsAllocated(Here(), Gc(u));
        found := obj[u].UpVal?;
      }
    }

    method StoreUpvalue(f: nat, k: nat, src: nat)
      requires Valid()
      modifies this`obj, this`col, this`gray
      ensures Valid() && Evolves(old(Here()), Here()) && Effect(SetUpvalue(f, k, src), old(Here()), Here())
    {
      hide Inv, Live;
      ghost var s := Here();
      EvolvesSame(s, s);
      var found, u := UpvalOf(f, k);
      var v := Reg(src);
      if found {
        UpvalSlot(s, u);
        SetUpval(u, v);
        EvolvesSame(s, Here());
      }
    }

    method LoadUpvalue(f: nat, k: nat)
      requires Valid()
      modifies this`obj
      ensures Valid() && Evolves(old(Here()), Here()) && Effect(GetUpvalue(f, k), old(Here()), Here())
    {
      hide Inv, LiveValue, Evolves;
      EvolvesSame(Here(), Here());
      var found, u := UpvalOf(f, k);
      if found {
        if IsOpen(obj[u]) { OpenSlot(Here(), u); }
        var v := ValuesOf(obj, u)[0];
        FieldIsLive(Here(), u, v);
        Load(v);
      }
    }

    /** lua_setmetatable on a basic type: a root changes, without a barrier. */
    method StoreMt(k: nat, src: nat)
      requires Valid()
      modifies this`mt
      ensures Valid() && Evolves(old(Here()), Here()) && Effect(SetBasicMetatable(k, src), old(Here()), Here())
    {
      hide Inv, LiveValue;
      var v := Reg(src);
      MtIsLive(Here());
      RunningIsLive(Here());
      assert LiveValue(Here(), Gc(running)) by { RunningValue(Here()); }
      RootsChange(Here(), running, Put(mt, k, v));
      mt := Put(mt, k, v);
      EvolvesSame(old(Here()), Here());
    }

    method StoreGlobals(src: nat)
      requires Valid()
      modifies this`obj
      ensures Valid() && Evolves(old(Here()), Here()) && Effect(SetGlobals(src), old(Here()), Here())
    {
      hide Inv, LiveValue, AtOrAbove;
      var v := Reg(src);
      RunningIsLive(Here());
      TopFree(Here(), running, |obj[running].stack|);
      SetFrame(obj[running].stack, v);
      EvolvesSame(old(Here()), Here());
    }

    method Switch(src: nat)
      requires Valid()
      modifies this`running
      ensures Valid() && Evolves(old(Here()), Here()) && Effect(Resume(src), old(Here()), Here())
    {
      hide Inv, LiveValue;
      var v := Reg(src);
      MtIsLive(Here());
      if v.Gc? && obj[v.ref].Thread? {
        RootsChange(Here(), v.ref, mt);
        running := v.ref;
      }
      EvolvesSame(old(Here()), Here());
    }

    method SwitchToMain()
      requires Valid()
      modifies this`running
      ensures Valid() && Evolves(old(Here()), Here()) && Effect(ToMainThread, old(Here()), Here())
    {
      hide Inv, LiveValue;
      RunningIsLive(Here());
      MtIsLive(Here());
      RunningValue(Here());
      RootsChange(Here(), mainthread, mt);
      running := mainthread;
      EvolvesSame(old(Here()), Here());
    }

    method Fix(src: nat)
      requires Valid()
      modifies this`fixed
      ensures Valid() && Evolves(old(Here()), Here()) && Effect(FixString(src), old(Here()), Here())
    {
      hide Inv, LiveValue;
      var v := Reg(src);
      if v.Gc? && obj[v.ref].Str? {
        FixKeeps(Here(), v.ref);
        fixed := fixed + {v.ref};
      }
      EvolvesSame(old(Here()), Here());
    }
  }
}
