/** What a program does between the steps of the collector: its actions, what each does to which field
    of which object, and what it may rely on over a whole run. */
module Program {
  import opened LuaHeap
  import opened Marking
  import opened GcState

  datatype Option<+T> = None | Some(value: T)

  /** What a closure takes an upvalue from: a register, or an upvalue of the enclosing closure. */
  datatype Captured = Slot(level: nat) | Outer(k: nat)

  /** What a program, or the collector, may do next. Numbers of registers count stack slots of the
      running thread; a register that does not hold what an action needs makes it do nothing. */
  datatype Action =
    | CollectorStep
    | FullCollection
    | LoadPlain(n: int)
    | Copy(src: nat)
    | Move(dst: nat, src: nat)
    | Return(first: nat)
    | MakeString(chars: string)
    | MakeTable
    | MakeProto
    | MakeThread
    | MakeClosure(enclosing: nat, proto: nat, captured: seq<Captured>)
    | SetIndex(x: nat, k: nat, src: nat)
    | GetIndex(x: nat, k: nat)
    | SetUpvalue(f: nat, k: nat, src: nat)
    | GetUpvalue(f: nat, k: nat)
    | SetBasicMetatable(k: nat, src: nat)
    | SetGlobals(src: nat)
    | Resume(src: nat)
    | ToMainThread
    | FixString(src: nat)

  // ---- What the actions do -----------------------------------------------------------------

  ghost predicate ThreadRuns(s: Snap) { s.running in s.obj && s.obj[s.running].Thread? }

  ghost function Register(s: Snap, i: nat): Value
    requires ThreadRuns(s)
  {
    var stack := s.obj[s.running].stack;
    if i < |stack| then stack[i] else Plain(0)
  }

  /** The objects, with another stack for the running thread; and with one value more on it. */
  ghost function WithStack(obj: Heap, t: Ref, stack: seq<Value>): Heap
    requires t in obj && obj[t].Thread?
  {
    obj[t := Thread(obj[t].globals, stack, obj[t].openupval)]
  }

  ghost predicate Pushes(s: Snap, s': Snap, v: Value)
    requires ThreadRuns(s)
  {
    s' == s.(obj := WithStack(s.obj, s.running, s.obj[s.running].stack + [v]))
  }

  /** A new object, at an address never used before, and a reference to it on the stack. */
  ghost predicate Makes(s: Snap, s': Snap, o: Obj)
    requires ThreadRuns(s)
  {
    && s.next !in s.obj && s'.obj == WithStack(s.obj[s.next := o], s.running, s.obj[s.running].stack + [Gc(s.next)])
    && s' == s.(obj := s'.obj, col := s'.col, next := s.next + 1, rootgc := s'.rootgc, sweepgc := s'.sweepgc)
  }

  /** The contents of x are the same, field by field; an upvalue that has been closed has the value
      its slot had. */
  ghost predicate SameContents(s: Snap, s': Snap, x: Ref)
    requires x in s.obj && x in s'.obj
  {
    match s.obj[x]
    case Thread(globals, stack, _) => s'.obj[x].Thread? && s'.obj[x].globals == globals && s'.obj[x].stack == stack
    case UpVal(Open(t, l)) =>
      && t in s.obj && s.obj[t].Thread? && l < |s.obj[t].stack|
      && (s'.obj[x] == s.obj[x] || s'.obj[x] == UpVal(Closed(s.obj[t].stack[l])))
    case _ => s'.obj[x] == s.obj[x]
  }

  /** A step of the collector: what it frees could not be reached, what stays keeps its contents. */
  ghost predicate Collected(s: Snap, s': Snap) {
    && s'.running == s.running && s'.main == s.main && s'.registry == s.registry && s'.mt == s.mt && s'.fixed == s.fixed && s'.next == s.next
    && s'.obj.Keys <= s.obj.Keys && (forall x :: x in s.obj && Reachable(s.obj, Roots(s), x) ==> x in s'.obj)
    && forall x :: x in s'.obj ==> SameContents(s, s', x)
  }

  function AfterReturn(o: Obj, t: Ref, stack: seq<Value>, first: nat): Obj {
    match o
    case UpVal(Open(u, l)) => if u == t && first <= l < |stack| then UpVal(Closed(stack[l])) else o
    case _ => o
  }

  /** The upvalues open at or above `first` have been closed, with the values of their slots, unless
      they could not be reached; then these slots are gone. */
  ghost predicate Returned(s: Snap, s': Snap, first: nat)
    requires ThreadRuns(s)
  {
    var t := s.running;
    var stack := s.obj[t].stack;
    && s'.running == t && s'.main == s.main && s'.registry == s.registry && s'.mt == s.mt && s'.fixed == s.fixed && s'.next == s.next
    && s'.obj.Keys <= s.obj.Keys && t in s'.obj && s'.obj[t].Thread?
    && s'.obj[t].globals == s.obj[t].globals && s'.obj[t].stack == (if first < |stack| then stack[..first] else stack)
    && (forall x :: x in s.obj && x !in s'.obj ==> s.obj[x].UpVal? && !Reachable(s.obj, Roots(s), x))
    && (forall x :: x in s'.obj && x != t ==> s'.obj[x] == AfterReturn(s.obj[x], t, stack, first))
  }

  /** Upvalue k of the closure in register f. */
  ghost function UpvalueOf(s: Snap, f: nat, k: nat): Option<Ref>
    requires ThreadRuns(s)
  {
    var c := Register(s, f);
    if c.Gc? && c.ref in s.obj && s.obj[c.ref].Function? && k < |s.obj[c.ref].links| && s.obj[c.ref].links[k].Gc? then
      var u := s.obj[c.ref].links[k].ref;
      if u in s.obj && s.obj[u].UpVal? then Some(u) else None
    else None
  }

  ghost predicate Exists(s: Snap, enclosing: nat, c: Captured)
    requires ThreadRuns(s)
  {
    match c
    case Slot(level) => level < |s.obj[s.running].stack|
    case Outer(k) => UpvalueOf(s, enclosing, k).Some?
  }

  ghost predicate UpvalueSet(s: Snap, s': Snap, u: Ref, v: Value) {
    && u in s.obj && s.obj[u].UpVal? && s' == s.(obj := s'.obj, col := s'.col, gray := s'.gray)
    && match s.obj[u].cell
       case Closed(_) => s'.obj == s.obj[u := UpVal(Closed(v))]
       case Open(t, l) => t in s.obj && s.obj[t].Thread? && l < |s.obj[t].stack| && s'.obj == WithStack(s.obj, t, s.obj[t].stack[l := v])
  }

  ghost predicate UpvalueGot(s: Snap, s': Snap, u: Ref)
    requires ThreadRuns(s)
  {
    && u in s.obj && s.obj[u].UpVal?
    && match s.obj[u].cell
       case Closed(v) => Pushes(s, s', v)
       case Open(t, l) => t in s.obj && s.obj[t].Thread? && l < |s.obj[t].stack| && Pushes(s, s', s.obj[t].stack[l])
  }

  /** Position k of what v refers to, a table, a closure or a prototype. */
  ghost function FieldOf(s: Snap, v: Value, k: nat): Option<Value> {
    if !v.Gc? || v.ref !in s.obj then None
    else match s.obj[v.ref]
      case Table(slots) => if k < |slots| then Some(slots[k]) else None
      case Function(links) => if k < |links| then Some(links[k]) else None
      case Proto(links) => if k < |links| then Some(links[k]) else None
      case _ => None
  }

  /** A store at position k, or, if there is none yet, at the next position. */
  ghost predicate IndexSet(s: Snap, s': Snap, v: Value, k: nat, w: Value) {
    && s' == s.(obj := s'.obj, col := s'.col, gray := s'.gray, grayagain := s'.grayagain)
    && if !v.Gc? || v.ref !in s.obj then s'.obj == s.obj
       else match s.obj[v.ref]
         case Table(slots) => s'.obj == s.obj[v.ref := Table(if k < |slots| then slots[k := w] else slots + [w])]
         case Function(links) => s'.obj == s.obj[v.ref := Function(if k < |links| then links[k := w] else links + [w])]
         case Proto(links) => s'.obj == s.obj[v.ref := Proto(if k < |links| then links[k := w] else links + [w])]
         case _ => s'.obj == s.obj
  }

  /** The environment of a new closure: that of the enclosing one, or the globals of the thread. */
  ghost function EnvironmentOf(s: Snap, enclosing: nat): Value
    requires ThreadRuns(s)
  {
    var c := Register(s, enclosing);
    if c.Gc? && c.ref in s.obj && s.obj[c.ref].Function? && s.obj[c.ref].links != [] then s.obj[c.ref].links[0]
    else s.obj[s.running].globals
  }

  /** Link j of a new closure refers to the upvalue that is open on the captured slot, or is the one
      the enclosing closure has. */
  ghost predicate Captures(s: Snap, obj: Heap, enclosing: nat, c: Captured, v: Value)
    requires ThreadRuns(s)
  {
    match c
    case Slot(level) => v.Gc? && v.ref in obj && obj[v.ref] == UpVal(Open(s.running, level))
    case Outer(k) => v.Gc? && UpvalueOf(s, enclosing, k) == Some(v.ref)
  }

  /** Objects that were there are as they were, but for the list of open upvalues of the running thread;
      new ones besides r are upvalues open on it. */
  ghost predicate OthersStay(s: Snap, obj: Heap, r: Ref)
    requires ThreadRuns(s)
  {
    && s.running in obj && obj[s.running].Thread? && obj[s.running].globals == s.obj[s.running].globals
    && (forall x :: x in s.obj && x != s.running ==> x in obj && obj[x] == s.obj[x])
    && forall x :: x in obj && x !in s.obj && x != r ==> s.next <= x && obj[x].UpVal? && obj[x].cell.Open? && obj[x].cell.thread == s.running
  }

  ghost predicate ClosureMade(s: Snap, s': Snap, enclosing: nat, proto: nat, captured: seq<Captured>)
    requires ThreadRuns(s)
  {
    var r := s.next;
    && s'.running == s.running && s'.main == s.main && s'.registry == s.registry && s'.mt == s.mt && s'.fixed == s.fixed
    && r !in s.obj && OthersStay(s, s'.obj, r) && s'.obj[s.running].stack == s.obj[s.running].stack + [Gc(r)]
    && r in s'.obj && s'.obj[r].Function? && |s'.obj[r].links| == 2 + |captured|
    && s'.obj[r].links[0] == EnvironmentOf(s, enclosing) && s'.obj[r].links[1] == Register(s, proto)
    && forall j :: 0 <= j < |captured| ==> Captures(s, s'.obj, enclosing, captured[j], s'.obj[r].links[j+2])
  }

  /** After the action a the state is s'. */
  ghost predicate Effect(a: Action, s: Snap, s': Snap) {
    && ThreadRuns(s)
    && var t := s.running;
       var stack := s.obj[t].stack;
       match a
       case CollectorStep => Collected(s, s')
       case FullCollection =>
         Collected(s, s') && forall x :: x in s'.obj <==> x in s.fixed || (x in s.obj && Reachable(s.obj, Roots(s), x))
       case LoadPlain(n) => Pushes(s, s', Plain(n))
       case Copy(src) => Pushes(s, s', Register(s, src))
       case Move(dst, src) => s' == if dst < |stack| then s.(obj := WithStack(s.obj, t, stack[dst := Register(s, src)])) else s
       case Return(first) => Returned(s, s', first)
       case MakeString(chars) =>
         exists r :: (r == s.next || r in s.obj) && (r in s.obj ==> s.obj[r] == Str(chars)) &&
           s'.obj == WithStack(s.obj[r := Str(chars)], t, stack + [Gc(r)]) && (forall x :: x in s'.obj && s'.obj[x] == Str(chars) ==> x == r) &&
           s' == s.(obj := s'.obj, col := s'.col, next := s'.next, strt := s'.strt)
       case MakeTable => Makes(s, s', Table([]))
       case MakeProto => Makes(s, s', Proto([]))
       case MakeThread => Makes(s, s', Thread(s.obj[t].globals, [], []))
       case MakeClosure(enclosing, proto, captured) =>
         var p := Register(s, proto);
         if p.Gc? && p.ref in s.obj && s.obj[p.ref].Proto? && (forall c :: c in captured ==> Exists(s, enclosing, c))
         then ClosureMade(s, s', enclosing, proto, captured) else s' == s
       case SetIndex(x, k, src) => IndexSet(s, s', Register(s, x), k, Register(s, src))
       case GetIndex(x, k) =>
         (match FieldOf(s, Register(s, x), k) case Some(v) => Pushes(s, s', v) case None => s' == s)
       case SetUpvalue(f, k, src) =>
         (match UpvalueOf(s, f, k) case Some(u) => UpvalueSet(s, s', u, Register(s, src)) case None => s' == s)
       case GetUpvalue(f, k) =>
         (match UpvalueOf(s, f, k) case Some(u) => UpvalueGot(s, s', u) case None => s' == s)
       case SetBasicMetatable(k, src) => s' == s.(mt := if k < |s.mt| then s.mt[k := Register(s, src)] else s.mt + [Register(s, src)])
       case SetGlobals(src) => s' == s.(obj := s.obj[t := Thread(Register(s, src), stack, s.obj[t].openupval)])
       case Resume(src) =>
         var v := Register(s, src);
         s' == if v.Gc? && v.ref in s.obj && s.obj[v.ref].Thread? then s.(running := v.ref) else s
       case ToMainThread => s' == s.(running := s.main)
       case FixString(src) =>
         var v := Register(s, src);
         s' == if v.Gc? && v.ref in s.obj && s.obj[v.ref].Str? then s.(fixed := s.fixed + {v.ref}) else s
  }

  // ---- From the steps to their effects -----------------------------------------------------

  lemma ContentsStay(s: Snap, s': Snap, x: Ref)
    requires Inv(s) && SameValues(s, s') && x in s'.obj
    ensures x in s.obj && SameContents(s, s', x)
  {
    hide Inv, Roots;
    assert Alike(s.obj[x], s'.obj[x]) && ValuesOf(s'.obj, x) == ValuesOf(s.obj, x);
    if s.obj[x].Thread? {
      var o, o' := s.obj[x], s'.obj[x];
      assert o'.globals == ([o'.globals] + o'.stack)[0] == ([o.globals] + o.stack)[0] == o.globals;
      assert o'.stack == ([o'.globals] + o'.stack)[1..] == ([o.globals] + o.stack)[1..] == o.stack;
    } else if IsOpen(s.obj[x]) {
      OpenSlot(s, x);
      var c := s.obj[x].cell;
      assert ValuesOf(s.obj, x) == [s.obj[c.thread].stack[c.level]];
      if s'.obj[x] != s.obj[x] { assert ValuesOf(s'.obj, x)[0] == s'.obj[x].cell.value; }
    }
  }

  lemma StepCollects(s: Snap, s': Snap)
    requires Inv(s) && SameValues(s, s') && forall x :: x in s.obj && x !in s'.obj ==> x !in Live(s.col, s.cw)
    ensures Effect(CollectorStep, s, s')
  {
    hide Inv, SameContents, Live, Reachable, Roots;
    RunningIsLive(s);
    forall x | x in s'.obj ensures SameContents(s, s', x) { ContentsStay(s, s', x); }
    forall x | x in s.obj && Reachable(s.obj, Roots(s), x) ensures x in s'.obj {
      ReachableIsAlive(s, x);
    }
  }

  lemma FullCollects(s: Snap, s': Snap)
    requires Inv(s) && SameValues(s, s') && s'.obj.Keys == ReachSet(s) + s.fixed
    ensures Effect(FullCollection, s, s')
  {
    hide Inv, SameContents, Reachable, Roots;
    RunningIsLive(s);
    forall x | x in s'.obj ensures SameContents(s, s', x) { ContentsStay(s, s', x); }
    assert forall x :: x in s'.obj <==> x in s'.obj.Keys;
  }

  // Making a closure.

  /** The upvalue r has been opened, and nothing else has changed. */
  ghost predicate OnlyOpened(obj0: Heap, obj: Heap, t: Ref, level: nat, r: Ref) {
    && t in obj0 && obj0[t].Thread? && r != t && t in obj && obj[t].Thread?
    && obj == obj0[r := UpVal(Open(t, level))][t := Thread(obj0[t].globals, obj0[t].stack, obj[t].openupval)]
  }

  /** One more link of r, for c; what was there stays. */
  ghost predicate CapturedOne(s: Snap, obj0: Heap, obj: Heap, r: Ref, enclosing: nat, c: Captured)
    requires ThreadRuns(s)
  {
    && r in obj0 && r in obj && obj0[r].Function? && obj[r].Function? && |obj[r].links| == |obj0[r].links| + 1
    && obj[r].links[..|obj0[r].links|] == obj0[r].links && Captures(s, obj, enclosing, c, obj[r].links[|obj0[r].links|])
    && forall x :: x in obj0 && obj0[x].UpVal? ==> x in obj && obj[x] == obj0[x]
  }

  /** The effect of making a closure, by the test that the program makes. */
  lemma ClosureEffect(s: Snap, enclosing: nat, proto: nat, captured: seq<Captured>)
    requires ThreadRuns(s)
    ensures var p := Register(s, proto);
      var all := p.Gc? && p.ref in s.obj && s.obj[p.ref].Proto? && forall c :: c in captured ==> Exists(s, enclosing, c);
      forall s' :: Effect(MakeClosure(enclosing, proto, captured), s, s') <==> if all then ClosureMade(s, s', enclosing, proto, captured) else s' == s
  {
    hide ClosureMade, Exists;
  }

  lemma ClosureBegun(s: Snap, s1: Snap, env: Value, p: Value)
    requires Inv(s) && ThreadRuns(s) && s1.obj == s.obj[s.next := Function([env, p])]
    ensures s.next !in s.obj && OthersStay(s, s1.obj, s.next) && s1.obj[s.running].stack == s.obj[s.running].stack
  {
    hide Inv;
    RunningIsLive(s);
  }

  lemma StackHolds(s: Snap, s1: Snap, r: Ref)
    requires ThreadRuns(s) && OthersStay(s, s1.obj, r)
    ensures s.running in s1.obj && s1.obj[s.running].Thread?
  {
  }

  lemma OpenedStays(s: Snap, obj0: Heap, obj: Heap, r: Ref, level: nat, u: Ref)
    requires ThreadRuns(s) && OthersStay(s, obj0, r) && r == s.next && r in obj0 && obj0[r].Function? && s.running in obj0
    requires obj == obj0 || (u !in obj0 && s.next < u && OnlyOpened(obj0, obj, s.running, level, u))
    ensures OthersStay(s, obj, r) && r in obj && obj[r] == obj0[r] && obj[s.running].stack == obj0[s.running].stack
    ensures forall x :: x in obj0 && obj0[x].UpVal? ==> x in obj && obj[x] == obj0[x]
  {
  }

  lemma StoreStays(s: Snap, obj: Heap, r: Ref, o: Obj)
    requires ThreadRuns(s) && OthersStay(s, obj, r) && r !in s.obj && r in obj
    ensures OthersStay(s, obj[r := o], r) && obj[r := o][s.running] == obj[s.running]
  {
  }

  lemma SlotCaptured(s: Snap, obj0: Heap, obj1: Heap, obj: Heap, r: Ref, enclosing: nat, level: nat, u: Ref)
    requires ThreadRuns(s) && r in obj0 && r in obj1 && obj1[r] == obj0[r] && obj0[r].Function?
    requires obj == obj1[r := Function(obj1[r].links + [Gc(u)])] && u in obj1 && obj1[u] == UpVal(Open(s.running, level))
    requires forall x :: x in obj0 && obj0[x].UpVal? ==> x in obj1 && obj1[x] == obj0[x]
    ensures CapturedOne(s, obj0, obj, r, enclosing, Slot(level))
  {
  }

  lemma CapturedOuter(s: Snap, obj0: Heap, obj: Heap, r: Ref, enclosing: nat, k: nat, u: Ref)
    requires ThreadRuns(s) && r in obj0 && obj0[r].Function? && obj == obj0[r := Function(obj0[r].links + [Gc(u)])]
    requires UpvalueOf(s, enclosing, k) == Some(u)
    ensures CapturedOne(s, obj0, obj, r, enclosing, Outer(k))
  {
  }

  lemma UpvalueStays(s: Snap, s1: Snap, r: Ref, f: nat, k: nat)
    requires ThreadRuns(s) && s1.running == s.running && OthersStay(s, s1.obj, r) && s1.obj[s.running].stack == s.obj[s.running].stack
    requires UpvalueOf(s, f, k).Some?
    ensures ThreadRuns(s1) && UpvalueOf(s1, f, k) == UpvalueOf(s, f, k)
  {
  }

  lemma CapturesStay(s: Snap, obj0: Heap, obj: Heap, r: Ref, enclosing: nat, captured: seq<Captured>, j: nat)
    requires ThreadRuns(s) && j < |captured| && CapturedOne(s, obj0, obj, r, enclosing, captured[j]) && |obj0[r].links| == 2 + j
    requires forall i :: 0 <= i < j ==> Captures(s, obj0, enclosing, captured[i], obj0[r].links[i+2])
    ensures forall i :: 0 <= i < j + 1 ==> Captures(s, obj, enclosing, captured[i], obj[r].links[i+2])
    ensures obj[r].links[..2] == obj0[r].links[..2]
  {
    var l0, l := obj0[r].links, obj[r].links;
    forall i | 0 <= i < |l0| ensures l[i] == l0[i] { assert l[..|l0|][i] == l0[i]; }
    assert l[..2] == l0[..2];
  }

  lemma ClosureDone(s: Snap, s2: Snap, s': Snap, enclosing: nat, proto: nat, captured: seq<Captured>)
    requires ThreadRuns(s) && ThreadRuns(s2) && OthersStay(s, s2.obj, s.next) && s.next !in s.obj && SameRootFields(s, s2) && s2.fixed == s.fixed
    requires s2.obj[s.running].stack == s.obj[s.running].stack && Pushes(s2, s', Gc(s.next))
    requires s.next in s2.obj && s2.obj[s.next].Function? && |s2.obj[s.next].links| == 2 + |captured|
    requires s2.obj[s.next].links[..2] == [EnvironmentOf(s, enclosing), Register(s, proto)]
    requires forall j :: 0 <= j < |captured| ==> Captures(s, s2.obj, enclosing, captured[j], s2.obj[s.next].links[j+2])
    ensures ClosureMade(s, s', enclosing, proto, captured)
  {
    hide EnvironmentOf, UpvalueOf;
    var links := s2.obj[s.next].links;
    assert links[0] == links[..2][0] && links[1] == links[..2][1];
    forall j | 0 <= j < |captured| ensures Captures(s, s'.obj, enclosing, captured[j], links[j+2]) {
      assert Captures(s, s2.obj, enclosing, captured[j], links[j+2]);
    }
  }

  lemma ClosedStack(s: Snap, s1: Snap, t: Ref, level: nat)
    requires ClosedFrom(s, s1, t, level)
    ensures t in s.obj && t in s1.obj && s.obj[t].Thread? && s1.obj[t].Thread? && s1.obj[t].stack == s.obj[t].stack && s1.obj[t].globals == s.obj[t].globals
    ensures SameRootFields(s, s1)
  {
  }

  lemma ReturnEffect(s: Snap, s1: Snap, s': Snap, first: nat)
    requires Inv(s) && ThreadRuns(s) && ClosedFrom(s, s1, s.running, first) && forall x :: !AtOrAbove(s1.obj, x, s.running, first)
    requires s' == if first < |s.obj[s.running].stack| then s1.(obj := s1.obj[s.running := s1.obj[s.running].(stack := s.obj[s.running].stack[..first])]) else s1
    ensures Effect(Return(first), s, s')
  {
    hide Inv, Live, Reachable, Roots, ValuesOf, Grew;
    var t := s.running;
    var stack := s.obj[t].stack;
    forall x | x in s.obj && x !in s'.obj ensures s.obj[x].UpVal? && !Reachable(s.obj, Roots(s), x) {
      DeadIsUnreachable(s, x);
    }
    forall x | x in s'.obj && x != t ensures s'.obj[x] == AfterReturn(s.obj[x], t, stack, first) {
      assert s'.obj[x] == s1.obj[x];
      if IsOpen(s.obj[x]) {
        OpenSlot(s, x);
        if s1.obj[x] == s.obj[x] { assert !AtOrAbove(s1.obj, x, t, first); }
      }
    }
  }

  // ---- What a program relies on ------------------------------------------------------------

  /** The states that a schedule goes through. */
  ghost predicate Follows(schedule: seq<Action>, trace: seq<Snap>) {
    && |trace| == |schedule| + 1
    && forall i :: 0 <= i < |schedule| ==> Effect(schedule[i], trace[i], trace[i+1])
  }

  /** The action stores into position k of the table t. */
  ghost predicate Overwrites(a: Action, s: Snap, t: Ref, k: nat) {
    a.SetIndex? && ThreadRuns(s) && Register(s, a.x) == Gc(t) && a.k == k
  }

  /** Whatever else happens, a position of a table that stays allocated keeps its value. */
  lemma SlotStays(a: Action, s: Snap, s': Snap, t: Ref, k: nat)
    requires Effect(a, s, s') && t in s.obj && t in s'.obj && t < s.next && s.obj[t].Table? && k < |s.obj[t].slots|
    requires !Overwrites(a, s, t, k)
    ensures s'.obj[t].Table? && k < |s'.obj[t].slots| && s'.obj[t].slots[k] == s.obj[t].slots[k]
  {
    hide Reachable, Roots, Collected, Returned, ClosureMade, Makes, UpvalueOf, UpvalueSet, UpvalueGot, Pushes, FieldOf, Exists, Register;
    match a {
      case CollectorStep => CollectedStays(s, s', t);
      case FullCollection => CollectedStays(s, s', t);
      case Return(first) => ReturnedStays(s, s', first, t);
      case MakeClosure(enclosing, proto, captured) => ClosureStays(s, s', enclosing, proto, captured, t);
      case SetUpvalue(f, n, src) => SetUpvalueStays(s, s', f, n, src, t);
      case GetUpvalue(f, n) => GetUpvalueStays(s, s', f, n, t);
      case _ => PushesStay(s, s', t);
    }
  }

  lemma CollectedStays(s: Snap, s': Snap, t: Ref)
    requires Collected(s, s') && t in s.obj && t in s'.obj && s.obj[t].Table?
    ensures s'.obj[t] == s.obj[t]
  {
    hide Reachable, Roots;
    assert SameContents(s, s', t);
  }

  lemma ReturnedStays(s: Snap, s': Snap, first: nat, t: Ref)
    requires ThreadRuns(s) && Returned(s, s', first) && t in s.obj && t in s'.obj && s.obj[t].Table?
    ensures s'.obj[t] == s.obj[t]
  {
    hide Reachable, Roots;
  }

  lemma ClosureStays(s: Snap, s': Snap, enclosing: nat, proto: nat, captured: seq<Captured>, t: Ref)
    requires ThreadRuns(s) && (s' == s || ClosureMade(s, s', enclosing, proto, captured)) && t in s.obj && t in s'.obj && s.obj[t].Table?
    ensures s'.obj[t] == s.obj[t]
  {
    hide Captures, EnvironmentOf;
  }

  lemma SetUpvalueStays(s: Snap, s': Snap, f: nat, k: nat, src: nat, t: Ref)
    requires Effect(SetUpvalue(f, k, src), s, s') && t in s.obj && t in s'.obj && s.obj[t].Table?
    ensures s'.obj[t] == s.obj[t]
  {
    hide UpvalueOf, Register;
  }

  lemma GetUpvalueStays(s: Snap, s': Snap, f: nat, k: nat, t: Ref)
    requires Effect(GetUpvalue(f, k), s, s') && t in s.obj && t in s'.obj && s.obj[t].Table?
    ensures s'.obj[t] == s.obj[t]
  {
    hide UpvalueOf;
  }

  lemma PushesStay(s: Snap, s': Snap, t: Ref)
    requires ThreadRuns(s) && t in s.obj && s.obj[t].Table? && t < s.next
    ensures forall v :: Pushes(s, s', v) ==> s'.obj[t] == s.obj[t]
    ensures forall o :: Makes(s, s', o) ==> s'.obj[t] == s.obj[t]
  {
  }

  lemma {:induction false} StaysStored(schedule: seq<Action>, trace: seq<Snap>, i: nat, j: nat, t: Ref, k: nat)
    requires IsRun(trace) && Follows(schedule, trace) && i <= j < |trace|
    requires t in trace[i].obj && trace[i].obj[t].Table? && k < |trace[i].obj[t].slots| && t in trace[j].obj
    requires forall n :: i <= n < j ==> !Overwrites(schedule[n], trace[n], t, k)
    ensures trace[j].obj[t].Table? && k < |trace[j].obj[t].slots| && trace[j].obj[t].slots[k] == trace[i].obj[t].slots[k]
    decreases j - i
  {
    hide Effect, Inv, Evolves, Overwrites;
    if i < j {
      assert Inv(trace[i]) && Evolves(trace[i], trace[i+1]) && Effect(schedule[i], trace[i], trace[i+1]);
      OldAddress(trace[i], trace[i+1], t);
      if t !in trace[i+1].obj { FreedStaysUnreachable(trace, i + 1, j, t); }
      SlotStays(schedule[i], trace[i], trace[i+1], t, k);
      StaysStored(schedule, trace, i + 1, j, t, k);
    }
  }

  lemma OldAddress(s: Snap, s': Snap, t: Ref)
    requires Inv(s) && Evolves(s, s') && t in s.obj
    ensures t < s.next <= s'.next
  {
    hide Safe, PhaseOk, RootList, UvList, Interned, OpenOk;
  }

  /** What a program stores in a table it finds there again: the value stored at step i is what the
      load at step j gives, whatever the collector and other stores have done in between. */
  lemma StoredIsLoaded(schedule: seq<Action>, trace: seq<Snap>, i: nat, j: nat, t: Ref, k: nat)
    requires IsRun(trace) && Follows(schedule, trace) && i < j < |schedule|
    requires t in trace[i].obj && trace[i].obj[t].Table? && ThreadRuns(trace[i]) && ThreadRuns(trace[j])
    requires schedule[i].SetIndex? && Register(trace[i], schedule[i].x) == Gc(t)
    requires k == if schedule[i].k < |trace[i].obj[t].slots| then schedule[i].k else |trace[i].obj[t].slots|
    requires schedule[j].GetIndex? && schedule[j].k == k && Register(trace[j], schedule[j].x) == Gc(t)
    requires forall n :: i < n < j ==> !Overwrites(schedule[n], trace[n], t, k)
    ensures Pushes(trace[j], trace[j+1], Register(trace[i], schedule[i].src))
  {
    hide Inv, Evolves, Overwrites, Reachable, Roots;
    assert Inv(trace[j]);
    RegisterAllocated(trace[j], schedule[j].x);
    assert Effect(schedule[i], trace[i], trace[i+1]) && Effect(schedule[j], trace[j], trace[j+1]);
    StaysStored(schedule, trace, i + 1, j, t, k);
  }

  lemma RegisterAllocated(s: Snap, i: nat)
    requires Inv(s) && ThreadRuns(s)
    ensures var v := Register(s, i); v.Gc? ==> v.ref in s.obj
  {
    hide Inv, LiveValue;
    RunningIsLive(s);
    var v := Register(s, i);
    if v.Gc? { LiveIsAllocated(s, v); }
  }
}
