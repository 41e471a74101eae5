/** The doubly linked ring of all open upvalues, lfunc.c and lstate.c: the links behind the sequence
    `uvhead` of module Collector. */
module UvHead {

  class UpVal {
    var prev: UpVal?
    var next: UpVal?

    constructor ()
      ensures prev == null && next == null
    {
      prev, next := null, null;
    }
  }

  /** The element behind place i of a ring. */
  function Succ(ring: seq<UpVal>, i: nat): UpVal
    requires i < |ring|
  {
    if i + 1 < |ring| then ring[i + 1] else ring[0]
  }

  ghost predicate Distinct(ring: seq<UpVal>) {
    forall i, j :: 0 <= i < j < |ring| ==> ring[i] != ring[j]
  }

  /** The links of a ring are inverse to each other and follow its order. */
  ghost predicate Linked(ring: seq<UpVal>)
    reads ring
  {
    forall i: nat :: i < |ring| ==> ring[i].next == Succ(ring, i) && Succ(ring, i).prev == ring[i]
  }

  /** Two places have different successors. */
  lemma SuccDistinct(ring: seq<UpVal>, i: nat, j: nat)
    requires Distinct(ring) && i < |ring| && j < |ring| && i != j
    ensures Succ(ring, i) != Succ(ring, j) && ring[i] != ring[j]
  {
  }

  lemma DistinctWith(ring: seq<UpVal>, uv: UpVal)
    requires Distinct(ring) && ring != [] && uv !in ring
    ensures Distinct([ring[0], uv] + ring[1..])
  {
  }

  lemma DistinctWithout(ring: seq<UpVal>, k: nat)
    requires Distinct(ring) && k < |ring|
    ensures Distinct(ring[..k] + ring[k + 1..]) && ring[k] !in ring[..k] + ring[k + 1..]
  {
  }

  lemma SuccAt(ring: seq<UpVal>, k: nat)
    requires k + 1 < |ring|
    ensures Succ(ring, k) == ring[k + 1]
  {
  }

  lemma SuccWith(ring: seq<UpVal>, uv: UpVal, i: nat)
    requires ring != [] && i <= |ring|
    ensures var r := [ring[0], uv] + ring[1..];
      r[i] == (if i == 0 then ring[0] else if i == 1 then uv else ring[i - 1]) &&
      Succ(r, i) == if i == 0 then uv else Succ(ring, i - 1)
  {
  }

  lemma SuccIndex(ring: seq<UpVal>, k: nat) returns (m: nat)
    requires k < |ring|
    ensures m < |ring| && Succ(ring, k) == ring[m]
  {
    m := if k + 1 < |ring| then k + 1 else 0;
  }

  lemma SuccWithout(ring: seq<UpVal>, k: nat, i: nat)
    requires k + 1 < |ring| && i < |ring| - 1
    ensures var r := ring[..k + 1] + ring[k + 2..];
      r[i] == (if i <= k then ring[i] else ring[i + 1]) &&
      Succ(r, i) == if i < k then Succ(ring, i) else Succ(ring, i + 1)
  {
  }

  class OpenList {
    const uvhead: UpVal

    /** The open upvalues, the newest first. */
    ghost var open: seq<UpVal>

    ghost function Ring(): seq<UpVal>
      reads this
    {
      [uvhead] + open
    }

    ghost predicate Valid()
      reads this, Ring()
    {
      Distinct(Ring()) && Linked(Ring())
    }

    /** f_luaopen: the ring of the head alone. */
    constructor ()
      ensures Valid() && open == [] && fresh(uvhead)
    {
      uvhead := new UpVal();
      open := [];
      new;
      uvhead.prev, uvhead.next := uvhead, uvhead;
    }

    /** The end of luaF_findupval. */
    method Link(uv: UpVal)
      requires Valid() && uv !in Ring()
      modifies this, uv, Ring()
      ensures Valid() && open == [uv] + old(open)
      ensures uv.next != null && uv.next.prev == uv && uv.prev != null && uv.prev.next == uv
    {
      hide Distinct, Succ;
      ghost var was := Ring();
      ghost var m := SuccIndex(was, 0);
      assert was[0].next == Succ(was, 0);
      DistinctWith(was, uv);
      uv.prev := uvhead;
      uv.next := uvhead.next;
      uv.next.prev := uv;
      uvhead.next := uv;
      open := [uv] + open;
      assert Ring() == [was[0], uv] + was[1..];
      forall i: nat | i < |Ring()| ensures Ring()[i].next == Succ(Ring(), i) && Succ(Ring(), i).prev == Ring()[i] {
        SuccWith(was, uv, i);
        if i > 1 {
          SuccDistinct(was, i - 1, 0);
          var n := SuccIndex(was, i - 1);
          assert old(was[i - 1].next == Succ(was, i - 1) && Succ(was, i - 1).prev == was[i - 1]);
        }
      }
    }

    /** unlinkupval. */
    method Unlink(uv: UpVal, ghost k: nat)
      requires Valid() && k < |open| && open[k] == uv
      modifies this, Ring()
      ensures Valid() && open == old(open)[..k] + old(open)[k + 1..] && uv !in Ring()
    {
      hide Distinct, Succ;
      ghost var was := Ring();
      SuccAt(was, k);
      ghost var m := SuccIndex(was, k + 1);
      assert was[k + 1] == uv && was[k].next == Succ(was, k) && uv.next == Succ(was, k + 1);
      assert uv.next.prev == uv && uv.prev.next == uv;
      DistinctWithout(was, k + 1);
      uv.next.prev := uv.prev;
      uv.prev.next := uv.next;
      open := open[..k] + open[k + 1..];
      assert Ring() == was[..k + 1] + was[k + 2..];
      forall i: nat | i < |Ring()| ensures Ring()[i].next == Succ(Ring(), i) && Succ(Ring(), i).prev == Ring()[i] {
        SuccWithout(was, k, i);
        if i != k {
          var j := if i < k then i else i + 1;
          SuccDistinct(was, j, k);
          SuccDistinct(was, j, k + 1);
          assert old(was[j].next == Succ(was, j) && Succ(was, j).prev == was[j]);
        }
      }
    }

    /** The walk of remarkupvals: every open upvalue once, in the order of the ring. */
    method Walk() returns (seen: seq<UpVal>)
      requires Valid()
      ensures seen == open
    {
      seen := [];
      var uv := uvhead.next;
      assert uvhead.next == Succ(Ring(), 0);
      while uv != uvhead
        invariant |seen| <= |open| && seen == open[..|seen|]
        invariant uv == Succ(Ring(), |seen|)
        decreases |open| - |seen|
      {
        assert uv.next == Succ(Ring(), |seen| + 1) by { assert Ring()[|seen| + 1] == uv; }
        seen := seen + [uv];
        uv := uv.next;
      }
    }
  }
}
