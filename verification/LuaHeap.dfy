/** The heap the collector of lua/lgc.c works on: objects, what each refers to, and reachability. */
module LuaHeap {

  /** An address. The allocator of the model never hands out an address twice. */
  type Ref = nat

  /** A TValue: collectable or not. */
  datatype Value = Plain(n: int) | Gc(ref: Ref)

  /** What an upvalue's `v` points to: a stack slot of a thread, or its own value. */
  datatype Cell = Open(thread: Ref, level: nat) | Closed(value: Value)

  datatype Obj =
    | Str(chars: string)
    | Table(slots: seq<Value>)
    | Function(links: seq<Value>)
    | Proto(links: seq<Value>)
    | UpVal(cell: Cell)
    | Thread(globals: Value, stack: seq<Value>, openupval: seq<Ref>)

  type Heap = map<Ref, Obj>

  predicate IsOpen(o: Obj) { o.UpVal? && o.cell.Open? }

  /** Objects that wait in a gray list before they are traversed. */
  predicate Container(o: Obj) { o.Table? || o.Function? || o.Proto? || o.Thread? }

  /** Objects linked in `rootgc`: all but strings and open upvalues. */
  predicate OnRootList(o: Obj) { !o.Str? && !IsOpen(o) }

  /** The values that object x refers to; an open upvalue reads its stack slot. */
  function ValuesOf(obj: Heap, x: Ref): seq<Value>
    requires x in obj
  {
    match obj[x]
    case Str(_) => []
    case Table(slots) => slots
    case Function(links) => links
    case Proto(links) => links
    case Thread(globals, stack, _) => [globals] + stack
    case UpVal(Closed(v)) => [v]
    case UpVal(Open(t, l)) =>
      if t in obj && obj[t].Thread? && l < |obj[t].stack| then [obj[t].stack[l]] else []
  }

  ghost predicate Edge(obj: Heap, x: Ref, y: Ref) {
    x in obj && Gc(y) in ValuesOf(obj, x)
  }

  /** What an object refers to, field by field: all positions of a table, the environment, prototype
      and upvalues of a closure, the globals and the whole stack of a thread, and the value of an
      upvalue, in its slot or its own. */
  lemma EdgeMeaning(obj: Heap, x: Ref, y: Ref)
    requires x in obj
    ensures Edge(obj, x, y) <==> match obj[x]
      case Str(_) => false
      case Table(slots) => Gc(y) in slots
      case Function(links) => Gc(y) in links
      case Proto(links) => Gc(y) in links
      case Thread(globals, stack, _) => globals == Gc(y) || Gc(y) in stack
      case UpVal(Closed(v)) => v == Gc(y)
      case UpVal(Open(t, l)) => t in obj && obj[t].Thread? && l < |obj[t].stack| && obj[t].stack[l] == Gc(y)
  {
    if obj[x].Thread? {
      var all := [obj[x].globals] + obj[x].stack;
      assert all[0] == obj[x].globals && all[1..] == obj[x].stack;
      assert Gc(y) in all <==> Gc(y) == all[0] || Gc(y) in all[1..];
    }
  }

  /** A path from some root, along references. */
  ghost predicate IsPath(obj: Heap, roots: set<Ref>, p: seq<Ref>) {
    && |p| > 0 && p[0] in roots
    && forall i :: 0 <= i < |p| - 1 ==> Edge(obj, p[i], p[i+1])
  }

  ghost predicate Reachable(obj: Heap, roots: set<Ref>, x: Ref) {
    exists p :: IsPath(obj, roots, p) && p[|p|-1] == x
  }

  ghost predicate ClosedUnder(obj: Heap, s: set<Ref>) {
    forall x, y :: x in s && Edge(obj, x, y) ==> y in s
  }

  /** Every closed set that holds the roots holds everything reachable. */
  lemma {:induction false} ReachableStaysIn(obj: Heap, roots: set<Ref>, s: set<Ref>, p: seq<Ref>)
    requires roots <= s && ClosedUnder(obj, s)
    requires IsPath(obj, roots, p)
    ensures p[|p|-1] in s
  {
    if |p| > 1 {
      var q := p[..|p|-1];
      assert forall i :: 0 <= i < |q| - 1 ==> Edge(obj, q[i], q[i+1]) by {
        forall i | 0 <= i < |q| - 1 ensures Edge(obj, q[i], q[i+1]) {
          assert Edge(obj, p[i], p[i+1]);
        }
      }
      ReachableStaysIn(obj, roots, s, q);
      assert Edge(obj, p[|p|-2], p[|p|-2+1]);
    }
  }

  lemma ReachableStep(obj: Heap, roots: set<Ref>, x: Ref, y: Ref)
    requires Reachable(obj, roots, x) && Edge(obj, x, y)
    ensures Reachable(obj, roots, y)
  {
    var p :| IsPath(obj, roots, p) && p[|p|-1] == x;
    var q := p + [y];
    forall i | 0 <= i < |q| - 1 ensures Edge(obj, q[i], q[i+1]) {
      if i < |p| - 1 { assert Edge(obj, p[i], p[i+1]); }
    }
    assert IsPath(obj, roots, q) && q[|q|-1] == y;
  }
}
