/** Colours of objects and what marking does to them (lua/lgc.h, lua/lgc.c). */
module Marking {
  import opened LuaHeap

  datatype Colour = White(bit: bool) | Gray | Black
  type Colours = map<Ref, Colour>

  ghost predicate NoDup(s: seq<Ref>) {
    forall i, j :: 0 <= i < j < |s| ==> s[i] != s[j]
  }

  ghost function Whites(col: Colours): set<Ref> {
    set x | x in col && col[x].White?
  }

  ghost predicate Dark(col: Colours, x: Ref) { x in col && !col[x].White? }

  /** Everything x refers to has been marked. */
  ghost predicate Settled(obj: Heap, col: Colours, x: Ref) {
    forall y :: Edge(obj, x, y) ==> Dark(col, y)
  }

  /** Marking turns objects gray or black and nothing white. */
  ghost predicate Marks(c0: Colours, c1: Colours) {
    && c0.Keys == c1.Keys
    && forall x :: x in c0 ==> c1[x] == c0[x] || !c1[x].White?
  }

  /** The colours an object may have, given whether it waits in a gray list. A closed upvalue is
      gray only while its value is being marked. */
  predicate ColourOk(o: Obj, c: Colour, listed: bool, busy: bool) {
    if Container(o) then (listed <==> c == Gray) && (c == Black ==> !o.Thread?)
    else !listed && (if o.UpVal? && o.cell.Closed? then c == Gray ==> busy else c != Black)
  }

  /** Colours agree with the gray lists: an object waits in at most one list, once. */
  ghost predicate Coloured(obj: Heap, col: Colours, gray: seq<Ref>, grayagain: seq<Ref>, busy: set<Ref>) {
    && obj.Keys == col.Keys
    && NoDup(gray) && NoDup(grayagain)
    && (forall x :: x in gray ==> x !in grayagain && x in obj)
    && (forall x :: x in grayagain ==> x in obj)
    && (forall x :: x in obj ==> ColourOk(obj[x], col[x], x in gray || x in grayagain, x in busy))
  }

  /** The effect of marking: colours darken, the gray list grows at the front, whatever became
      dark is settled or waits in the gray list, and white plus gray objects do not increase. */
  ghost predicate Advanced(obj: Heap, c0: Colours, g0: seq<Ref>, c1: Colours, g1: seq<Ref>) {
    && Marks(c0, c1)
    && |g1| >= |g0| && g1[|g1| - |g0|..] == g0
    && (forall x :: Dark(c1, x) && !Dark(c0, x) ==> Settled(obj, c1, x) || x in g1)
    && |Whites(c1)| + |g1| <= |Whites(c0)| + |g0|
  }

  lemma AdvancedRefl(obj: Heap, c: Colours, g: seq<Ref>)
    ensures Advanced(obj, c, g, c, g)
  {
  }

  lemma AdvancedTrans(obj: Heap, c0: Colours, g0: seq<Ref>, c1: Colours, g1: seq<Ref>, c2: Colours, g2: seq<Ref>)
    requires Advanced(obj, c0, g0, c1, g1) && Advanced(obj, c1, g1, c2, g2)
    ensures Advanced(obj, c0, g0, c2, g2) && Marks(c1, c2)
  {
    var n := |g2| - |g1|;
    assert g2[|g2| - |g0|..] == g2[n..][|g1| - |g0|..];
    assert forall x :: x in g1 ==> x in g2 by {
      assert g2 == g2[..n] + g1;
    }
  }

  ghost predicate AllDark(col: Colours, vs: seq<Value>) {
    forall i :: 0 <= i < |vs| && vs[i].Gc? ==> Dark(col, vs[i].ref)
  }

  /** Dark objects lie in `bound`, a set of objects closed under references. */
  ghost predicate Bounded(obj: Heap, col: Colours, bound: set<Ref>) {
    && ClosedUnder(obj, bound) && bound <= obj.Keys
    && forall x :: Dark(col, x) ==> x in bound
  }

  /** white2gray on an object that enters the gray list. */
  lemma GrayContainer(obj: Heap, col: Colours, gray: seq<Ref>, grayagain: seq<Ref>, busy: set<Ref>, o: Ref, bound: set<Ref>)
    requires Bounded(obj, col, bound) && o in bound
    ensures Bounded(obj, col[o := Gray], bound)
    requires Coloured(obj, col, gray, grayagain, busy) && o in obj && col[o].White? && Container(obj[o])
    ensures Coloured(obj, col[o := Gray], [o] + gray, grayagain, busy)
    ensures Advanced(obj, col, gray, col[o := Gray], [o] + gray)
  {
    assert Whites(col[o := Gray]) == Whites(col) - {o};
  }

  /** white2gray on a string or an upvalue; the latter is busy until its value is marked. */
  lemma GrayOther(obj: Heap, col: Colours, gray: seq<Ref>, grayagain: seq<Ref>, busy: set<Ref>, o: Ref, bound: set<Ref>)
    requires Coloured(obj, col, gray, grayagain, busy) && o in obj && col[o].White? && !Container(obj[o])
    requires Bounded(obj, col, bound) && o in bound
    ensures Bounded(obj, col[o := Gray], bound) && obj.Keys == col.Keys
    ensures forall y :: Edge(obj, o, y) ==> y in bound && y in obj
    ensures obj[o].Str? ==> Advanced(obj, col, gray, col[o := Gray], gray)
    ensures Coloured(obj, col[o := Gray], gray, grayagain, if obj[o].Str? then busy else busy + {o})
    ensures Marks(col, col[o := Gray])
    ensures Whites(col[o := Gray]) == Whites(col) - {o} && |Whites(col[o := Gray])| < |Whites(col)|
  {
    assert Whites(col[o := Gray]) == Whites(col) - {o};
  }

  lemma UpvalColoured(obj: Heap, c: Colours, gray: seq<Ref>, grayagain: seq<Ref>, busy: set<Ref>, o: Ref)
    requires o in obj && obj[o].UpVal? && o !in busy && Coloured(obj, c, gray, grayagain, busy + {o})
    ensures Coloured(obj, if obj[o].cell.Closed? then c[o := Black] else c, gray, grayagain, busy)
  {
    hide NoDup, ValuesOf;
  }

  /** gray2black on a closed upvalue whose value is marked, and nothing on an open one. */
  lemma UpvalDone(obj: Heap, c0: Colours, c: Colours, g0: seq<Ref>, gray: seq<Ref>, grayagain: seq<Ref>, busy: set<Ref>, o: Ref, bound: set<Ref>)
    requires Bounded(obj, c, bound)
    requires o in obj && obj[o].UpVal? && obj.Keys == c0.Keys && c0[o].White? && o !in busy
    requires Coloured(obj, c, gray, grayagain, busy + {o})
    requires Advanced(obj, c0[o := Gray], g0, c, gray)
    requires forall i :: 0 <= i < |ValuesOf(obj, o)| && ValuesOf(obj, o)[i].Gc? ==> Dark(c, ValuesOf(obj, o)[i].ref)
    requires |Whites(c0[o := Gray])| <= |Whites(c0)|
    ensures var c1 := if obj[o].cell.Closed? then c[o := Black] else c;
      && Coloured(obj, c1, gray, grayagain, busy)
      && Advanced(obj, c0, g0, c1, gray) && Bounded(obj, c1, bound) && Dark(c1, o)
  {
    var c1 := if obj[o].cell.Closed? then c[o := Black] else c;
    assert Whites(c1) == Whites(c);
    UpvalColoured(obj, c, gray, grayagain, busy, o);
    hide Coloured, Whites, ValuesOf;
    forall x | Dark(c1, x) && !Dark(c0, x)
      ensures Settled(obj, c1, x) || x in gray
    {
      assert Dark(c, x);
      if x != o {
        assert !Dark(c0[o := Gray], x);
        if x !in gray {
          assert Settled(obj, c, x);
        }
      }
      if x !in gray {
      forall y | Edge(obj, x, y) ensures Dark(c1, y) { assert Dark(c, y); }
      }
    }
  }

  /** The head of the gray list turns black, a thread moves to grayagain instead. */
  lemma PopGray(obj: Heap, col: Colours, gray: seq<Ref>, grayagain: seq<Ref>, bound: set<Ref>)
    requires Coloured(obj, col, gray, grayagain, {}) && gray != [] && Bounded(obj, col, bound)
    ensures var o := gray[0]; var c := if o in obj && obj[o].Thread? then col else col[o := Black];
      && o in obj && Container(obj[o]) && Repainted(col, c, o)
      && Coloured(obj, c, gray[1..], (if obj[o].Thread? then [o] else []) + grayagain, {})
      && Bounded(obj, c, bound)
      && forall i :: 0 <= i < |ValuesOf(obj, o)| && ValuesOf(obj, o)[i].Gc? ==> ValuesOf(obj, o)[i].ref in bound
  {
    var o := gray[0];
    assert gray == [o] + gray[1..];
    assert o !in gray[1..];
    forall i | 0 <= i < |ValuesOf(obj, o)| && ValuesOf(obj, o)[i].Gc?
      ensures ValuesOf(obj, o)[i].ref in bound
    {
      assert Edge(obj, o, ValuesOf(obj, o)[i].ref);
    }
  }

  /** At most the dark object o changed its shade. */
  ghost predicate Repainted(c0: Colours, c1: Colours, o: Ref) {
    Dark(c0, o) && Dark(c1, o) && c1 == c0[o := c1[o]]
  }

  lemma MarkedIsSettled(obj: Heap, col: Colours, o: Ref)
    requires o in obj && AllDark(col, ValuesOf(obj, o))
    ensures Settled(obj, col, o)
  {
    hide ValuesOf;
    forall y | Edge(obj, o, y) ensures Dark(col, y) {
      var i :| 0 <= i < |ValuesOf(obj, o)| && ValuesOf(obj, o)[i] == Gc(y);
    }
  }

  lemma Repaint(obj: Heap, c0: Colours, c1: Colours, g1: seq<Ref>, o: Ref, c2: Colours, g2: seq<Ref>)
    requires Repainted(c0, c1, o) && Advanced(obj, c1, g1, c2, g2)
    ensures Advanced(obj, c0, g1, c2, g2)
  {
    assert Whites(c0) == Whites(c1);
    assert forall x :: Dark(c0, x) <==> Dark(c1, x);
  }

  /** Every dark object is settled, or waits in the gray list, or is one of `extra`. */
  ghost predicate Front(obj: Heap, col: Colours, gray: seq<Ref>, extra: set<Ref>) {
    forall x :: Dark(col, x) ==> Settled(obj, col, x) || x in gray || x in extra
  }

  lemma FrontAdvance(obj: Heap, c0: Colours, g0: seq<Ref>, c1: Colours, g1: seq<Ref>, extra: set<Ref>)
    requires Front(obj, c0, g0, extra) && Advanced(obj, c0, g0, c1, g1)
    ensures Front(obj, c1, g1, extra) && Marks(c0, c1)
  {
    assert g1 == g1[..|g1| - |g0|] + g0;
  }

  /** The object taken from the gray list has been traversed. */
  lemma FrontPop(obj: Heap, c0: Colours, g0: seq<Ref>, c1: Colours, g1: seq<Ref>, extra: set<Ref>)
    requires g0 != [] && Front(obj, c0, g0, extra) && Advanced(obj, c0, g0[1..], c1, g1)
    requires Settled(obj, c1, g0[0])
    ensures Front(obj, c1, g1, extra) && Marks(c0, c1)
    ensures |Whites(c1)| + |g1| < |Whites(c0)| + |g0|
  {
    hide Edge;
    assert g0 == [g0[0]] + g0[1..];
    assert g1 == g1[..|g1| - |g0[1..]|] + g0[1..];
  }

  ghost function Elems(s: seq<Ref>): set<Ref> { set x | x in s }

  /** What uv refers to is marked if uv is. */
  lemma FrontRemark(obj: Heap, c0: Colours, g0: seq<Ref>, c1: Colours, g1: seq<Ref>, extra: set<Ref>, s: seq<Ref>)
    requires s != [] && Front(obj, c0, g0, extra + Elems(s)) && Advanced(obj, c0, g0, c1, g1)
    requires s[0] in obj && (Dark(c0, s[0]) ==> AllDark(c1, ValuesOf(obj, s[0])))
    ensures Front(obj, c1, g1, extra + Elems(s[1..])) && Marks(c0, c1)
  {
    FrontAdvance(obj, c0, g0, c1, g1, extra + Elems(s));
    assert s == [s[0]] + s[1..];
  }

  lemma MarksTrans(c0: Colours, c1: Colours, c2: Colours)
    requires Marks(c0, c1) && Marks(c1, c2)
    ensures Marks(c0, c2)
  {
  }

  lemma RemarkReady(obj: Heap, col: Colours, gray: seq<Ref>, grayagain: seq<Ref>, bound: set<Ref>, uv: Ref)
    requires Coloured(obj, col, gray, grayagain, {}) && Bounded(obj, col, bound) && uv in obj && IsOpen(obj[uv])
    ensures uv in col && col[uv] != Black
    ensures col[uv] == Gray ==> forall v :: v in ValuesOf(obj, uv) && v.Gc? ==> v.ref in bound
  {
    if col[uv] == Gray {
      assert Dark(col, uv);
      forall v | v in ValuesOf(obj, uv) && v.Gc? ensures v.ref in bound {
        assert Edge(obj, uv, v.ref);
      }
    }
  }
}
