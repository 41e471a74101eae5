/** ltable.c: a table with an array part and a hash part. */
module LuaTable {
  import opened TableNodes
  import opened TableSizes

  /** Where the value of a key is kept; NoSlot is luaO_nilobject. */
  datatype Slot = NoSlot | ArraySlot(i: nat) | NodeSlot(j: nat)

  datatype Result<+T> = Ok(value: T) | NilIndex | NanIndex | TableOverflow

  predicate InArray(k: Key, n: nat) { k.Int? && 1 <= k.i <= n }

  predicate Live(n: Node) { n.value != NilVal }

  /** How many values from index `from` on are not nil. */
  function CountVals(a: seq<Val>, from: nat): nat
    requires from <= |a|
    decreases |a| - from
  {
    if from == |a| then 0 else (if a[from] != NilVal then 1 else 0) + CountVals(a, from + 1)
  }

  lemma {:induction false} ValsCounted(a: seq<Val>, from: nat)
    requires from <= |a|
    ensures CountVals(a, from) == |set i | from <= i < |a| && a[i] != NilVal|
    decreases |a| - from
  {
    if from < |a| {
      ValsCounted(a, from + 1);
      var more := set i | from + 1 <= i < |a| && a[i] != NilVal;
      assert (set i | from <= i < |a| && a[i] != NilVal) == if a[from] != NilVal then more + {from} else more;
    }
  }

  lemma {:induction false} LiveCounted(node: seq<Node>, to: nat)
    requires to <= |node|
    ensures CountLive(node, to) == |set j | 0 <= j < to && node[j].value != NilVal|
  {
    if to > 0 {
      LiveCounted(node, to - 1);
      var less := set j | 0 <= j < to - 1 && node[j].value != NilVal;
      assert (set j | 0 <= j < to && node[j].value != NilVal) == if node[to-1].value != NilVal then less + {to - 1} else less;
    }
  }

  /** How many of the nodes before `to` are live. */
  function CountLive(node: seq<Node>, to: nat): nat
    requires to <= |node|
  {
    if to == 0 then 0 else CountLive(node, to - 1) + (if Live(node[to-1]) then 1 else 0)
  }

  /** How many of them have a key outside an array part of size n. */
  function CountOut(node: seq<Node>, to: nat, n: nat): (r: nat)
    requires to <= |node|
    ensures r <= CountLive(node, to)
  {
    if to == 0 then 0 else CountOut(node, to - 1, n) + (if Live(node[to-1]) && !InArray(node[to-1].key, n) then 1 else 0)
  }

  function Min(a: nat, b: nat): nat { if a < b then a else b }

  class Table {
    var arr: seq<Val>
    var sizearray: nat
    var node: seq<Node>
    var lsizenode: nat
    var lastfree: int
    /** t->node == dummynode. */
    var dummy: bool
    const hash: Hash

    ghost predicate Valid()
      reads this
    {
      && sizearray <= |arr| && sizearray <= Pow2(MAXBITS) && Wf(node, hash) && |node| == Pow2(lsizenode)
      && (dummy ==> Empty(node) && |node| == 1 && lastfree <= 0)
      && (!dummy ==> lastfree <= |node| && forall i :: 0 <= i < |node| && lastfree <= i ==> Keyed(node[i]))
      && forall j :: 0 <= j < |node| ==> !InArray(node[j].key, sizearray)
    }

    /** The finite map that the table stands for: nil where there is no entry. */
    ghost function Lookup(k: Key): Val
      requires sizearray <= |arr|
      reads this
    {
      if InArray(k, sizearray) then arr[k.i-1] else NodeVal(node, k)
    }

    ghost predicate HasFree()
      reads this
    {
      !dummy && KeyedCount(node) < |node|
    }

    /** The key has a slot or can get one without a rehash. */
    ghost predicate CanPlace(k: Key)
      reads this
    {
      InArray(k, sizearray) || Find(node, k) >= 0 || HasFree()
    }

    ghost function SlotOf(k: Key): Slot
      reads this
    {
      if InArray(k, sizearray) then ArraySlot(k.i - 1)
      else if k != NoKey && Find(node, k) >= 0 then NodeSlot(Find(node, k))
      else NoSlot
    }

    /** The number of entries. */
    ghost function Entries(): nat
      reads this
    {
      CountVals(arr, 0) + CountLive(node, |node|)
    }

    /** The table is sure to be rehashed for one more key without an overflow. */
    ghost predicate Roomy()
      reads this
    {
      |arr| == sizearray && Entries() < Pow2(MAXBITS)
    }

    constructor (h: Hash)
      requires IsHash(h)
      ensures Valid() && hash == h && Roomy() && forall k :: Lookup(k) == NilVal
    {
      hide Wf, KeyedCount, NodeVal;
      hash := h;
      arr, sizearray, node, lsizenode, lastfree, dummy := [], 0, [Node(NoKey, NilVal, NULL)], 0, 0, true;
      new;
      EmptyWf(node, h);
      PowPositive(MAXBITS);
      assert CountLive(node, 0) == 0;
      assert Entries() == 0;
    }

    // ---- Searching -------------------------------------------------------------------------

    /** luaH_get, with luaH_getnum and luaH_getstr. */
    method Get(k: Key) returns (s: Slot)
      requires Valid()
      ensures s == SlotOf(k)
    {
      hide Wf, KeyedCount, NodeVal, Find;
      if k == NoKey { return NoSlot; }
      if InArray(k, sizearray) { return ArraySlot(k.i - 1); }
      WfParts(node, hash);
      var n: int := hash(k, |node|);
      ghost var all := TheChain(node, hash, n);
      ghost var rest: seq<nat> := all;
      while n != NULL
        invariant Chain(node, n, rest) && forall i :: i in all ==> i in rest || (i < |node| && node[i].key != k)
        decreases |rest|
      {
        if node[n].key == k {
          FindAt(node, n);
          return NodeSlot(n);
        }
        assert rest == [rest[0]] + rest[1..];
        n := node[n].next;
        rest := rest[1..];
      }
      NotFound(node, hash, k, all);
      return NoSlot;
    }

    /** Reading through the pointer that luaH_get returns gives the value of the key. */
    lemma SlotReads(k: Key)
      requires Valid()
      ensures var s := SlotOf(k); (s.ArraySlot? ==> s.i < |arr|) && (s.NodeSlot? ==> s.j < |node|) && Read(s) == Lookup(k)
    {
      hide Wf, Find;
    }

    /** Where the value of a key is: indices from 1 to the size of the array part stand there, any
        other key in the one node that has it, and nil is the value of a key that is nowhere. */
    lemma LookupMeaning(k: Key)
      requires Valid()
      ensures k.Int? && 1 <= k.i <= sizearray ==> Lookup(k) == arr[k.i-1]
      ensures !(k.Int? && 1 <= k.i <= sizearray) && k != NoKey ==> forall j :: 0 <= j < |node| && node[j].key == k ==> Lookup(k) == node[j].value
      ensures !(k.Int? && 1 <= k.i <= sizearray) && (k == NoKey || forall j :: 0 <= j < |node| ==> node[j].key != k) ==> Lookup(k) == NilVal
    {
      WfParts(node, hash);
      hide Wf, Find;
    }

    function Read(s: Slot): Val
      requires s.ArraySlot? ==> s.i < |arr|
      requires s.NodeSlot? ==> s.j < |node|
      reads this
    {
      match s
      case NoSlot => NilVal
      case ArraySlot(i) => arr[i]
      case NodeSlot(j) => node[j].value
    }

    /** Storing through the pointer that luaH_set returns. */
    method Store(s: Slot, k: Key, v: Val)
      requires Valid() && s == SlotOf(k) && s != NoSlot
      modifies this`arr, this`node
      ensures Valid() && |arr| == |old(arr)| && |node| == |old(node)| && KeyedCount(node) == KeyedCount(old(node))
      ensures forall k' :: Lookup(k') == if k' == k then v else old(Lookup(k'))
      ensures s.ArraySlot? ==> node == old(node) && arr == old(arr)[s.i := v]
      ensures s.NodeSlot? ==> arr == old(arr)
      ensures forall j :: 0 <= j < |node| ==> node[j].key == old(node)[j].key
    {
      hide Wf, KeyedCount, NodeVal;
      WfParts(node, hash);
      match s
      case ArraySlot(i) => arr := arr[i := v];
      case NodeSlot(j) =>
        StoredWf(node, hash, j, v);
        StoredValues(node, j, v);
        KeyedUpdate(node, j, node[j].(value := v));
        node := node[j := node[j].(value := v)];
    }

    // ---- Inserting -------------------------------------------------------------------------

    /** getfreepos: a node that was never used, or -1. */
    method GetFreePos() returns (n: int)
      requires Valid()
      modifies this`lastfree
      ensures lastfree <= old(lastfree)
      ensures if HasFree() then 0 <= n < |node| && !Keyed(node[n]) && lastfree == n && (forall i :: n < i < |node| ==> Keyed(node[i]))
              else n == -1 && Valid()
    {
      hide Wf, KeyedCount, NodeVal, Find;
      while true
        invariant lastfree <= old(lastfree) && (!dummy ==> forall i :: 0 <= i < |node| && lastfree <= i ==> Keyed(node[i]))
        decreases lastfree
      {
        lastfree := lastfree - 1;
        if lastfree < 0 {
          if !dummy { AllKeyed(node); }
          return -1;
        }
        if !Keyed(node[lastfree]) {
          NotAllKeyed(node, lastfree);
          return lastfree;
        }
      }
    }

    /** newkey: the slot for a key that is not in the table. Its value is nil, and no other value
        has changed. After a rehash there is a place for the key: the recursion is one level deep. */
    method NewKey(k: Key) returns (r: Result<Slot>)
      requires Valid() && IsNew(node, k) && !InArray(k, sizearray) && (CanPlace(k) || |arr| == sizearray)
      modifies this
      ensures old(CanPlace(k)) || old(Roomy()) ==> r.Ok?
      ensures r.Ok? || (r == TableOverflow && Overflowed(old(arr), old(node), old(sizearray)))
      ensures r.Ok? ==> Valid() && r.value == SlotOf(k) && r.value != NoSlot && (old(|arr| == sizearray) ==> |arr| == sizearray)
      ensures r.Ok? ==> forall k' :: Lookup(k') == old(Lookup(k'))
      ensures old(CanPlace(k)) ==>
                && arr == old(arr) && sizearray == old(sizearray) && dummy == old(dummy) && lsizenode == old(lsizenode)
                && |node| == |old(node)| && KeyedCount(node) <= KeyedCount(old(node)) + 1
      decreases if CanPlace(k) then 0 else 1, 2
    {
      hide Wf, KeyedCount, NodeVal, IsNew, Inserted, Find, Pow2, MadeWay, LinkedIn, PlacedAt;
      WfParts(node, hash);
      NotFoundNew(node, k);
      var mp := hash(k, |node|);
      if node[mp].value != NilVal || dummy {
        var n := GetFreePos();
        if n < 0 {
          var ok := Rehash(k);
          if !ok { return TableOverflow; }
          r := Set(k);
          return;
        }
        var s := PlaceColliding(k, mp, n);
        r := Ok(s);
      } else {
        InsertedAt(node, hash, mp, k);
        node := PlacedAt(node, mp, k);
        InsertedFacts(old(node), node, hash, k, mp, sizearray);
        r := Ok(NodeSlot(mp));
      }
    }

    /** The case of newkey where the main position is taken and the node n is free. */
    method PlaceColliding(k: Key, mp: nat, n: nat) returns (s: Slot)
      requires sizearray <= |arr| && sizearray <= Pow2(MAXBITS) && Wf(node, hash) && |node| == Pow2(lsizenode) && !dummy
      requires IsNew(node, k) && !InArray(k, sizearray) && n < |node| && !Keyed(node[n]) && lastfree == n
      requires (forall i :: n < i < |node| ==> Keyed(node[i])) && forall j :: 0 <= j < |node| ==> !InArray(node[j].key, sizearray)
      requires mp < |node| && mp == hash(k, |node|) && Keyed(node[mp])
      modifies this`node
      ensures Valid() && s == SlotOf(k) && s != NoSlot && |node| == |old(node)| && KeyedCount(node) <= KeyedCount(old(node)) + 1
      ensures forall k' :: Lookup(k') == old(Lookup(k'))
    {
      hide Wf, KeyedCount, NodeVal, IsNew, Inserted, Find, Pow2, MadeWay, LinkedIn, PlacedAt;
      WfParts(node, hash);
      NotFoundNew(node, k);
      var othern := hash(node[mp].key, |node|);
      var to := mp;
      if othern != mp {
        var prev := FindPrevious(othern, mp);
        InsertedInstead(node, hash, mp, n, prev, k);
        FreeTaken(node, mp, n, prev, k);
        node := MadeWay(node, mp, n, prev, k);
      } else {
        InsertedBehind(node, hash, mp, n, k);
        node := LinkedIn(node, mp, n, k);
        to := n;
      }
      InsertedFacts(old(node), node, hash, k, to, sizearray);
      s := NodeSlot(to);
    }

    /** The node before mp on the chain from othern. */
    method FindPrevious(othern: nat, mp: nat) returns (prev: nat)
      requires Wf(node, hash) && mp < |node| && Keyed(node[mp]) && othern == hash(node[mp].key, |node|) && othern != mp
      ensures prev < |node| && node[prev].next == mp
    {
      assert OnChain(node, othern, mp);
      ghost var rest :| Chain(node, othern, rest) && mp in rest;
      prev := othern;
      while node[prev].next != mp
        invariant Chain(node, prev, rest) && mp in rest && prev != mp && prev < |node|
        decreases |rest|
      {
        assert rest == [rest[0]] + rest[1..];
        prev := node[prev].next;
        rest := rest[1..];
      }
    }

    /** luaH_set, with luaH_setnum and luaH_setstr. */
    method Set(k: Key) returns (r: Result<Slot>)
      requires Valid() && (CanPlace(k) || |arr| == sizearray)
      modifies this
      ensures r == NilIndex <==> k == NoKey
      ensures r == NanIndex <==> k == NaN
      ensures r == TableOverflow ==> !old(CanPlace(k)) && !old(Roomy()) && Overflowed(old(arr), old(node), old(sizearray))
      ensures r.Ok? ==> r.value == SlotOf(k) && r.value != NoSlot
      ensures r != TableOverflow ==> Valid() && (old(|arr| == sizearray) ==> |arr| == sizearray)
      ensures r != TableOverflow ==> forall k' :: Lookup(k') == old(Lookup(k'))
      ensures old(CanPlace(k)) ==>
                && arr == old(arr) && sizearray == old(sizearray) && dummy == old(dummy) && lsizenode == old(lsizenode)
                && |node| == |old(node)| && KeyedCount(node) <= KeyedCount(old(node)) + 1
      ensures InArray(k, old(sizearray)) ==> node == old(node)
      decreases if CanPlace(k) then 0 else 1, 3
    {
      hide Wf, KeyedCount, NodeVal, IsNew;
      WfParts(node, hash);
      var p := Get(k);
      if p != NoSlot { return Ok(p); }
      if k == NoKey { return NilIndex; }
      if k == NaN { return NanIndex; }
      NewFromNotFound(node, k);
      r := NewKey(k);
    }

    /** The entries are the values that are not nil, in both parts. */
    lemma EntriesMeaning()
      ensures Entries() == |set i | 0 <= i < |arr| && arr[i] != NilVal| + |set j | 0 <= j < |node| && node[j].value != NilVal|
    {
      ValsCounted(arr, 0);
      LiveCounted(node, |node|);
    }

    /** Fewer than 2^26 entries, and all of the array part in use as such: then a rehash cannot overflow. */
    lemma RoomyMeaning()
      ensures Roomy() <==> |arr| == sizearray && Entries() < 67108864
    {
      hide Pow2, CountVals, CountLive;
      PowersAre();
      assert Pow2(MAXBITS) == Powers()[MAXBITS] == 67108864;
    }

    /** An assignment t[k] = v. */
    method Put(k: Key, v: Val) returns (r: Result<Slot>)
      requires Valid() && (CanPlace(k) || |arr| == sizearray)
      modifies this
      ensures r == NilIndex <==> k == NoKey
      ensures r == NanIndex <==> k == NaN
      ensures r == TableOverflow ==> !old(CanPlace(k)) && !old(Roomy()) && Overflowed(old(arr), old(node), old(sizearray))
      ensures r != TableOverflow ==> Valid() && (old(|arr| == sizearray) ==> |arr| == sizearray)
      ensures r != TableOverflow ==> forall k' :: Lookup(k') == if r.Ok? && k' == k then v else old(Lookup(k'))
      ensures old(CanPlace(k)) ==>
                && sizearray == old(sizearray) && |arr| == |old(arr)| && dummy == old(dummy) && lsizenode == old(lsizenode)
                && |node| == |old(node)| && KeyedCount(node) <= KeyedCount(old(node)) + 1
      ensures InArray(k, old(sizearray)) ==> KeyedCount(node) == KeyedCount(old(node)) && arr == old(arr)[k.i-1 := v]
      ensures old(CanPlace(k)) && !InArray(k, old(sizearray)) ==> arr == old(arr)
      decreases if CanPlace(k) then 0 else 1, 4
    {
      hide Wf, KeyedCount, NodeVal, Find, Valid;
      r := Set(k);
      if r.Ok? { Store(r.value, k, v); }
    }

    // ---- Rehashing -------------------------------------------------------------------------

    /** setarrayvector. */
    method SetArrayVector(size: nat)
      requires size >= sizearray && sizearray == |arr|
      modifies this`arr, this`sizearray
      ensures arr == old(arr) + seq(size - old(sizearray), _ => NilVal) && sizearray == size == |arr|
    {
      arr := arr + seq(size - sizearray, _ => NilVal);
      sizearray := size;
    }

    /** setnodevector: no more than 2^26 nodes. */
    method SetNodeVector(size: nat) returns (ok: bool)
      modifies this`node, this`lsizenode, this`lastfree, this`dummy
      ensures ok <==> size <= Pow2(MAXBITS)
      ensures !ok ==> node == old(node) && lsizenode == old(lsizenode) && lastfree == old(lastfree) && dummy == old(dummy)
      ensures ok ==> Empty(node) && |node| == Pow2(lsizenode) && size <= |node| && dummy == (size == 0)
      ensures ok ==> if dummy then |node| == 1 && lastfree == 0 else lastfree == |node|
    {
      PowPositive(MAXBITS);
      if size == 0 {
        node := [Node(NoKey, NilVal, NULL)];
        lsizenode, lastfree, dummy := 0, 0, true;
      } else {
        var lsize := CeilLog2(size);
        LogExceeds(size, lsize);
        if lsize > MAXBITS { return false; }
        var n := Pow2(lsize);
        node := seq(n, _ => Node(NoKey, NilVal, NULL));
        lsizenode, lastfree, dummy := lsize, n, false;
      }
      ok := true;
    }

    /** countint: 1 if the key counts as an index of the array part. */
    static method CountInt(k: Key, nums: array<nat>, ghost S: set<int>) returns (c: nat)
      requires Counts(nums[..], S) && (k.Int? ==> k.i !in S)
      modifies nums
      ensures Counts(nums[..], if k.Int? then S + {k.i} else S)
      ensures c == if k.Int? && 0 < k.i <= Pow2(MAXBITS) then 1 else 0
    {
      hide Pow2, Low, Counts, Slice;
      if k.Int? && 0 < k.i <= Pow2(MAXBITS) {
        CountsSize(nums[..], S);
        var l := CeilLog2(k.i);
        LogBelow(k.i, l);
        Counted(nums[..], nums[..][l := nums[l] + 1], S, k.i, l);
        nums[l] := nums[l] + 1;
        assert nums[..] == old(nums[..])[l := old(nums[l]) + 1];
        return 1;
      }
      if k.Int? { NotCounted(nums[..], S, k.i); }
      return 0;
    }

    /** The inner loop of numusearray: the keys from `start` to `lim`. */
    method NumUseSlice(start: nat, lim: nat) returns (lc: nat, i: nat)
      requires |arr| == sizearray && 0 < start <= lim + 1 && lim <= sizearray
      ensures lc == Slice(ArrayKeys(arr, |arr|), start - 1, lim) && i == lim + 1
    {
      hide Slice, Within, ArrayKeys;
      lc, i := 0, start;
      SliceBound(ArrayKeys(arr, |arr|), start - 1, start - 1);
      while i <= lim
        invariant start <= i <= lim + 1 && lc == Slice(ArrayKeys(arr, |arr|), start - 1, i - 1)
      {
        ArrayKeyStep(arr, start - 1, i);
        if arr[i-1] != NilVal { lc := lc + 1; }
        i := i + 1;
      }
    }

    /** numusearray: the keys of the array part, slice by slice. */
    method NumUseArray(nums: array<nat>) returns (ause: nat)
      requires Valid() && |arr| == sizearray && nums.Length == MAXBITS + 1 && forall lg :: 0 <= lg <= MAXBITS ==> nums[lg] == 0
      modifies nums
      ensures Counts(nums[..], ArrayKeys(arr, |arr|)) && ause == Slice(ArrayKeys(arr, |arr|), 0, Pow2(MAXBITS)) == CountVals(arr, 0)
    {
      hide Valid, Within, Slice, ArrayKeys, Partly, Pow2, Low;
      SmallArray();
      ghost var S := ArrayKeys(arr, |arr|);
      var lg, ttlg, i := 0, 1, 1;
      ause := 0;
      SliceBound(S, 0, 0);
      PartlyNone(nums[..], S);
      while lg <= MAXBITS
        invariant 0 <= lg <= MAXBITS + 1 && ttlg == Pow2(lg) && i == Min(Low(lg), sizearray) + 1 && ause == Slice(S, 0, i - 1)
        invariant Partly(nums[..], S, lg)
        decreases MAXBITS + 1 - lg
      {
        LowStep(lg);
        var lim := ttlg;
        if lim > sizearray {
          lim := sizearray;
          if i > lim { break; }
        }
        ghost var start := i - 1;
        var lc;
        lc, i := NumUseSlice(i, lim);
        SliceStop(arr, Low(lg), lim, Pow2(lg));
        SliceSplit(S, 0, start, lim);
        PartlyStep(nums[..], S, lg, lc);
        nums[lg] := nums[lg] + lc;
        ause := ause + lc;
        lg, ttlg := lg + 1, ttlg * 2;
      }
      LastLow();
      ArrayCounted(arr, nums[..], lg, ause);
    }

    lemma SmallArray()
      requires Valid()
      ensures sizearray <= Pow2(MAXBITS) && Pow2(0) == 1 && Low(0) == 0
    {
    }

    /** numusehash: the keys of the hash part. */
    method NumUseHash(nums: array<nat>) returns (totaluse: nat, ause: nat)
      requires Valid() && |arr| == sizearray && Counts(nums[..], ArrayKeys(arr, |arr|))
      modifies nums
      ensures Counts(nums[..], ArrayKeys(arr, |arr|) + HashKeys(node, 0))
      ensures totaluse == CountLive(node, |node|)
      ensures ause + CountVals(arr, 0) == Slice(ArrayKeys(arr, |arr|) + HashKeys(node, 0), 0, Pow2(MAXBITS))
    {
      hide Wf, Find, KeyedCount, NodeVal, Within, Slice, ArrayKeys, HashKeys, Counts, CountVals, Pow2;
      ghost var A := ArrayKeys(arr, |arr|);
      WfParts(node, hash);
      totaluse, ause := 0, 0;
      var i := |node|;
      HashKeysEnd(node);
      assert A + HashKeys(node, i) == A;
      ArrayTotal(arr);
      while i > 0
        invariant 0 <= i <= |node| && Counts(nums[..], A + HashKeys(node, i)) && totaluse + CountLive(node, i) == CountLive(node, |node|)
        invariant ause + CountVals(arr, 0) == Slice(A + HashKeys(node, i), 0, Pow2(MAXBITS))
      {
        i := i - 1;
        HashKeysStep(arr, node, i);
        if node[i].value != NilVal {
          var c := CountInt(node[i].key, nums, A + HashKeys(node, i + 1));
          if node[i].key.Int? { SliceAdd(A + HashKeys(node, i + 1), node[i].key.i, 0, Pow2(MAXBITS)); }
          ause := ause + c;
          totaluse := totaluse + 1;
        }
      }
    }

    /** rehash: the parts get the sizes that the keys in use, with the new one, ask for. They have
        room for all of them. */
    method Rehash(ek: Key) returns (ok: bool)
      requires Valid() && |arr| == sizearray && IsNew(node, ek) && !InArray(ek, sizearray) && !CanPlace(ek)
      modifies this
      ensures old(Roomy()) ==> ok
      ensures !ok ==> Overflowed(old(arr), old(node), old(sizearray))
      ensures ok ==> Valid() && |arr| == sizearray && CanPlace(ek)
      ensures ok ==> forall k :: Lookup(k) == old(Lookup(k))
      ensures ok ==> var S := old(KeysInUse(arr, node, ek));
        (sizearray == 0 || (IsSize(sizearray) && !Sparse(S, sizearray))) && NoBetter(S, sizearray, MAXBITS + 1)
      decreases 1, 1
    {
      hide Wf, Find, KeyedCount, NodeVal, Within, Slice, ArrayKeys, HashKeys, Counts, CountVals, CountOut, CountLive, IsNew, IsSize, NoBetter, Sparse;
      var nums := new nat[MAXBITS + 1](_ => 0);
      ghost var S := KeysInUse(arr, node, ek);
      var nasize := NumUseArray(nums);
      var totaluse := nasize;
      var used, ause := NumUseHash(nums);
      totaluse, nasize := totaluse + used, nasize + ause;
      NewInUse(arr, node, ek, sizearray);
      var c := CountInt(ek, nums, ArrayKeys(arr, |arr|) + HashKeys(node, 0));
      nasize, totaluse := nasize + c, totaluse + 1;
      var n, na := ComputeSizes(nums[..], nasize, S);
      Sufficient(arr, node, hash, ek, sizearray, n);
      SizeBound(n);
      ok := Resize(n, totaluse - na);
    }

    /** What an overflow leaves of a table: the array part may have grown, and the hash part is as it
        was, so that entries with a key in between are not found any more. */
    ghost predicate Overflowed(arr0: seq<Val>, node0: seq<Node>, size0: nat)
      requires size0 <= |arr0|
      reads this
    {
      && node == node0 && size0 <= sizearray <= |arr|
      && forall k :: Lookup(k) == if InArray(k, sizearray) && !InArray(k, size0) then NilVal
                                  else if InArray(k, size0) then arr0[k.i-1] else NodeVal(node0, k)
    }

    /** resize: every entry is put into the new parts. The size of the hash part is enough for those
        that do not go to the arr part, so that no rehash is needed on the way. */
    method Resize(nasize: nat, nhsize: nat) returns (ok: bool)
      requires Valid() && |arr| == sizearray && nasize <= Pow2(MAXBITS)
      requires CountVals(arr, Min(nasize, sizearray)) + CountOut(node, |node|, nasize) <= nhsize
      modifies this
      ensures ok <==> nhsize <= Pow2(MAXBITS)
      ensures !ok ==> Overflowed(old(arr), old(node), old(sizearray))
      ensures ok ==> Valid() && |arr| == sizearray == nasize && dummy == (nhsize == 0) && nhsize <= |node|
      ensures ok ==> KeyedCount(node) <= old(CountVals(arr, Min(nasize, sizearray)) + CountOut(node, |node|, nasize))
      ensures ok ==> forall k :: Lookup(k) == old(Lookup(k))
      decreases 1, 0
    {
      hide Wf, KeyedCount, NodeVal, CountOut, CountVals, CountLive, Find, Empty, Pow2;
      ghost var a0, all := arr, CountVals(arr, Min(nasize, sizearray)) + CountOut(node, |node|, nasize);
      WfParts(node, hash);
      var oldasize := sizearray;
      var nold := node;
      if nasize > oldasize { SetArrayVector(nasize); }
      ok := SetNodeVector(nhsize);
      if !ok { return; }
      EmptyWf(node, hash);
      EmptyKeys(node);
      if nasize < oldasize {
        sizearray := nasize;
        ReinsertSlice(a0, oldasize, all - CountVals(a0, nasize), nhsize, nold);
        arr := arr[..nasize];
      }
      ReinsertNodes(a0, nold, all, nhsize);
    }

    /** luaH_resizearray, for an array part that does not shrink. */
    method ResizeArray(nasize: nat)
      requires Valid() && |arr| == sizearray <= nasize <= Pow2(MAXBITS) && |node| <= Pow2(MAXBITS)
      modifies this
      ensures Valid() && |arr| == sizearray == nasize
      ensures forall k :: Lookup(k) == old(Lookup(k))
    {
      var nsize := if dummy then 0 else |node|;
      NothingVanishes(arr, node, nasize, dummy);
      var ok := Resize(nasize, nsize);
    }

    /** The entries of the vanishing slice of the old array part go to the hash part. */
    method ReinsertSlice(ghost a0: seq<Val>, oldasize: nat, ghost rest: nat, ghost size: nat, ghost nold: seq<Node>)
      requires Valid() && arr == a0 && |a0| == oldasize && sizearray < oldasize && dummy == (size == 0) && size <= |node|
      requires KeyedCount(node) == 0 && CountVals(a0, sizearray) + rest <= size
      requires forall k :: Lookup(k) == if InArray(k, sizearray) then a0[k.i-1] else NilVal
      modifies this
      ensures Valid() && arr == a0 && sizearray == old(sizearray) && dummy == (size == 0) && size <= |node|
      ensures KeyedCount(node) <= CountVals(a0, sizearray)
      ensures forall k :: Lookup(k) == if InArray(k, oldasize) then a0[k.i-1] else NilVal
      decreases 0, 5
    {
      hide Wf, KeyedCount, NodeVal, CountOut, CountVals, CountLive, Find, Empty, Pow2;
      ghost var nasize := sizearray;
      var i := sizearray;
      while i < oldasize
        invariant nasize <= i <= oldasize && Valid() && arr == a0 && sizearray == nasize && dummy == (size == 0) && size <= |node|
        invariant KeyedCount(node) + CountVals(a0, i) <= CountVals(a0, nasize)
        invariant forall k :: Lookup(k) == if InArray(k, i) then a0[k.i-1] else NilVal
      {
        CountValsStep(a0, i);
        if arr[i] != NilVal {
          var r := Put(Int(i + 1), arr[i]);
        }
        i := i + 1;
      }
    }

    /** The entries of the old hash part. */
    method ReinsertNodes(ghost a0: seq<Val>, nold: seq<Node>, ghost all: nat, ghost size: nat)
      requires Valid() && |arr| == sizearray && dummy == (size == 0) && all <= size <= |node| && Wf(nold, hash)
      requires KeyedCount(node) + CountOut(nold, |nold|, sizearray) <= all
      requires forall k :: Lookup(k) == if InArray(k, |a0|) then a0[k.i-1] else NilVal
      requires forall j :: 0 <= j < |nold| ==> !InArray(nold[j].key, |a0|)
      modifies this
      ensures Valid() && |arr| == sizearray == old(sizearray) && dummy == (size == 0) && size <= |node|
      ensures KeyedCount(node) <= all
      ensures forall k :: Lookup(k) == if InArray(k, |a0|) then a0[k.i-1] else NodeVal(nold, k)
      decreases 0, 5
    {
      hide Wf, KeyedCount, NodeVal, CountOut, CountVals, CountLive, Find, Empty, Pow2;
      ghost var nasize := sizearray;
      WfParts(nold, hash);
      NodeValFrom(nold);
      var i := |nold|;
      while i > 0
        invariant 0 <= i <= |nold| && Valid() && |arr| == sizearray == nasize && dummy == (size == 0) && size <= |node|
        invariant KeyedCount(node) + CountOut(nold, i, nasize) <= all
        invariant forall k :: Lookup(k) == if InArray(k, |a0|) then a0[k.i-1] else if Find(nold, k) >= i then NodeVal(nold, k) else NilVal
      {
        i := i - 1;
        var o := nold[i];
        CountOutStep(nold, i, nasize);
        NodeValStep(nold, i);
        if o.value != NilVal {
          var r := Put(o.key, o.value);
        }
      }
    }

    // ---- Traversal -------------------------------------------------------------------------

    /** All values in the order of a traversal: the array part, then the nodes. */
    ghost function Values(): seq<Val>
      requires sizearray <= |arr|
      reads this
    {
      arr[..sizearray] + seq(|node|, (j: nat) requires j < |node| reads this => node[j].value)
    }

    /** The place of a key in that order; that of nil is before all others. */
    ghost function Place(k: Key): int
      reads this
    {
      PlaceOf(sizearray, node, k)
    }

    /** The order of a traversal: the array part by index, then the nodes by number. */
    lemma PlaceMeaning(k: Key, q: nat)
      requires Valid()
      ensures Place(NoKey) == -1 && |Values()| == sizearray + |node|
      ensures q < sizearray ==> Place(Int(q + 1)) == q && Values()[q] == arr[q]
      ensures q < |node| ==> (node[q].key != NoKey ==> Place(node[q].key) == sizearray + q) && Values()[sizearray+q] == node[q].value
      ensures k != NoKey && !(k.Int? && 1 <= k.i <= sizearray) && (forall j :: 0 <= j < |node| ==> node[j].key != k) ==> Place(k) == -2
    {
      if q < |node| { NodePlace(q); }
      hide Wf;
    }

    lemma NodePlace(q: nat)
      requires Valid() && q < |node|
      ensures (node[q].key != NoKey ==> Place(node[q].key) == sizearray + q) && Values()[sizearray+q] == node[q].value
    {
      WfParts(node, hash);
      hide Wf, Find;
      if Keyed(node[q]) { FindAt(node, q); }
    }

    /** findindex; None for a key that is not in the table. */
    method FindIndex(k: Key) returns (i: int)
      requires Valid()
      ensures i == Place(k)
    {
      if k == NoKey { return -1; }
      var s := Get(k);
      match s
      case ArraySlot(j) => return j;
      case NodeSlot(j) => return sizearray + j;
      case NoSlot => return -2;
    }

    /** luaH_next: the first entry after that of k, in the order of a traversal. */
    method Next(k: Key) returns (r: Step)
      requires Valid()
      ensures r.Invalid? <==> Place(k) == -2
      ensures r.Entry? ==> Place(k) < Place(r.key) < |Values()| && Values()[Place(r.key)] == r.value != NilVal
      ensures r.Entry? ==> forall q :: Place(k) < q < Place(r.key) ==> Values()[q] == NilVal
      ensures r.End? ==> Place(k) != -2 && forall q :: Place(k) < q < |Values()| ==> Values()[q] == NilVal
    {
      hide Wf, KeyedCount, NodeVal;
      WfParts(node, hash);
      var i := FindIndex(k);
      if i == -2 { return Invalid; }
      i := i + 1;
      while i < sizearray
        invariant Place(k) < i && forall q :: Place(k) < q < i && q < |Values()| ==> Values()[q] == NilVal
        decreases sizearray - i
      {
        if arr[i] != NilVal { return Entry(Int(i + 1), arr[i]); }
        i := i + 1;
      }
      i := i - sizearray;
      while i < |node|
        invariant 0 <= i && Place(k) < i + sizearray && forall q :: Place(k) < q < i + sizearray && q < |Values()| ==> Values()[q] == NilVal
        decreases |node| - i
      {
        if node[i].value != NilVal {
          FindAt(node, i);
          return Entry(node[i].key, node[i].value);
        }
        i := i + 1;
      }
      return End;
    }

    /** Assigning nil to the entries of some keys. */
    method Clear(keys: seq<Key>)
      requires Valid()
      modifies this`arr, this`node
      ensures Valid() && |arr| == |old(arr)| && |node| == |old(node)|
      ensures forall j :: 0 <= j < |node| ==> node[j].key == old(node)[j].key
      ensures forall k :: Lookup(k) == if k in keys then NilVal else old(Lookup(k))
    {
      hide Wf, KeyedCount, NodeVal, Find;
      var i := 0;
      while i < |keys|
        invariant 0 <= i <= |keys| && Valid() && |arr| == |old(arr)| && |node| == |old(node)|
        invariant forall j :: 0 <= j < |node| ==> node[j].key == old(node)[j].key
        invariant forall k :: Lookup(k) == if k in keys[..i] then NilVal else old(Lookup(k))
      {
        var s := Get(keys[i]);
        if s != NoSlot {
          Store(s, keys[i], NilVal);
        } else {
          NoSlotNil(keys[i]);
        }
        assert keys[..i+1] == keys[..i] + [keys[i]];
        i := i + 1;
      }
    }

    lemma NoSlotNil(k: Key)
      requires Valid() && SlotOf(k) == NoSlot
      ensures Lookup(k) == NilVal
    {
    }

    /** An entry is found at its place, and each place has one key. */
    lemma PlaceFacts(k: Key)
      requires Valid()
      ensures Lookup(k) != NilVal ==> Place(k) >= 0
      ensures Place(k) >= 0 ==> Place(k) < |Values()| && Values()[Place(k)] == Lookup(k)
      ensures forall k' :: Place(k') == Place(k) >= 0 ==> k' == k
    {
      hide Wf, KeyedCount, Find;
      WfParts(node, hash);
    }

    /** A traversal that starts from nil and feeds every key back, while after each step the entries
        of some keys are set to nil: it ends, no key comes twice, only entries of the table come, and
        every entry that is still there at the end has come. */
    method Traverse(plan: seq<seq<Key>>) returns (keys: seq<Key>)
      requires Valid()
      modifies this`arr, this`node
      ensures Valid() && |keys| <= sizearray + |node|
      ensures forall i, j :: 0 <= i < j < |keys| ==> keys[i] != keys[j]
      ensures forall i :: 0 <= i < |keys| ==> old(Lookup(keys[i])) != NilVal
      ensures forall k :: Lookup(k) != NilVal ==> k in keys && Lookup(k) == old(Lookup(k))
    {
      hide Wf, KeyedCount, NodeVal, Find, Pow2;
      keys := [];
      var k, more := NoKey, true;
      forall k' ensures Lookup(k') != NilVal ==> Place(k') >= 0 { PlaceFacts(k'); }
      while more
        invariant Valid() && |arr| == |old(arr)| && |node| == |old(node)| && Place(k) != -2
        invariant forall j :: 0 <= j < |node| ==> node[j].key == old(node)[j].key
        invariant forall k' :: Lookup(k') != NilVal ==> Lookup(k') == old(Lookup(k'))
        invariant forall i :: 0 <= i < |keys| ==> old(Lookup(keys[i])) != NilVal && 0 <= Place(keys[i]) <= Place(k)
        invariant forall i, j :: 0 <= i < j < |keys| ==> keys[i] != keys[j]
        invariant |keys| <= Place(k) + 1 <= sizearray + |node|
        invariant forall k' :: Lookup(k') != NilVal && k' !in keys ==> Place(k') > Place(k)
        invariant !more ==> forall q :: Place(k) < q < |Values()| ==> Values()[q] == NilVal
        decreases more, sizearray + |node| - Place(k)
      {
        var r := Next(k);
        if r.Entry? {
          forall k' ensures (Lookup(k') != NilVal ==> Place(k') >= 0) && (Place(k') >= 0 ==> Place(k') < |Values()| && Values()[Place(k')] == Lookup(k')) {
            PlaceFacts(k');
          }
          PlaceFacts(r.key);
          ghost var n0 := node;
          keys := keys + [r.key];
          k := r.key;
          if |keys| - 1 < |plan| { Clear(plan[|keys|-1]); }
          SamePlaces(sizearray, n0, node);
        } else {
          more := false;
        }
      }
      forall k' | Lookup(k') != NilVal ensures k' in keys { PlaceFacts(k'); }
    }

  }

  /** The order of a traversal; -1 for nil and -2 for a key that is not there. */
  function PlaceOf(size: nat, node: seq<Node>, k: Key): int {
    if k == NoKey then -1
    else if InArray(k, size) then k.i - 1
    else if Find(node, k) >= 0 then size + Find(node, k)
    else -2
  }

  datatype Step = Entry(key: Key, value: Val) | End | Invalid

  lemma {:induction false} SameFind(node: seq<Node>, node': seq<Node>, k: Key)
    requires |node'| == |node| && forall j :: 0 <= j < |node| ==> node'[j].key == node[j].key
    ensures Find(node', k) == Find(node, k)
    decreases |node|
  {
    if node != [] { SameFind(node[..|node|-1], node'[..|node|-1], k); }
  }

  lemma SamePlaces(size: nat, node: seq<Node>, node': seq<Node>)
    requires |node'| == |node| && forall j :: 0 <= j < |node| ==> node'[j].key == node[j].key
    ensures forall k :: PlaceOf(size, node', k) == PlaceOf(size, node, k)
  {
    forall k ensures PlaceOf(size, node', k) == PlaceOf(size, node, k) { SameFind(node, node', k); }
  }

  lemma NothingVanishes(a: seq<Val>, node: seq<Node>, n: nat, dummy: bool)
    requires |a| <= n && (dummy ==> Empty(node) && |node| == 1)
    ensures CountVals(a, Min(n, |a|)) + CountOut(node, |node|, n) <= if dummy then 0 else |node|
  {
    LiveBound(node, |node|);
    if dummy { assert CountLive(node, 0) == 0; }
  }

  lemma {:induction false} LiveBound(node: seq<Node>, to: nat)
    requires to <= |node|
    ensures CountLive(node, to) <= to
  {
    if to > 0 { LiveBound(node, to - 1); }
  }

  lemma NotFound(node: seq<Node>, h: Hash, k: Key, all: seq<nat>)
    requires Wf(node, h) && k != NoKey && Chain(node, h(k, |node|), all)
    requires forall i :: i in all ==> i < |node| && node[i].key != k
    ensures Find(node, k) < 0
  {
    var j := Find(node, k);
    if j >= 0 {
      assert OnChain(node, h(k, |node|), j);
      var ps :| Chain(node, h(k, |node|), ps) && j in ps;
      ChainSame(node, h(k, |node|), ps, all);
    }
  }

  lemma {:induction false} AllKeyed(node: seq<Node>)
    requires forall i :: 0 <= i < |node| ==> Keyed(node[i])
    ensures KeyedCount(node) == |node|
  {
  }

  lemma {:induction false} NotAllKeyed(node: seq<Node>, j: nat)
    requires j < |node| && !Keyed(node[j])
    ensures KeyedCount(node) < |node|
    decreases |node|
  {
    var last := |node| - 1;
    if j < last { NotAllKeyed(node[..last], j); }
  }

  /** What a method needs to know of a well-formed hash part. */
  lemma WfParts(node: seq<Node>, h: Hash)
    requires Wf(node, h)
    ensures |node| > 0 && IsHash(h) && Unique(node)
    ensures forall i :: 0 <= i < |node| ==> NULL <= node[i].next < |node| && node[i].key != NaN && (Live(node[i]) ==> Keyed(node[i]))
  {
  }

  lemma NotFoundNew(node: seq<Node>, k: Key)
    requires IsNew(node, k)
    ensures Find(node, k) < 0 && k != NoKey && k != NaN
  {
  }

  lemma PowPositive(n: nat)
    ensures Pow2(n) > 0
  {
  }

  lemma NewFromNotFound(node: seq<Node>, k: Key)
    requires k != NoKey && k != NaN && Find(node, k) < 0
    ensures IsNew(node, k)
  {
  }

  /** What newkey has achieved. */
  lemma InsertedFacts(node: seq<Node>, node': seq<Node>, h: Hash, k: Key, mp: nat, n: nat)
    requires Inserted(node, node', h, k, mp) && k != NoKey
    ensures Wf(node', h) && |node'| == |node| && mp < |node| && node'[mp].key == k && Find(node', k) == mp && node'[mp].value == NilVal
    ensures (forall k' :: NodeVal(node', k') == NodeVal(node, k')) && KeyedCount(node') <= KeyedCount(node) + 1
    ensures forall i :: 0 <= i < |node| && (Keyed(node[i]) || i == mp) ==> Keyed(node'[i])
    ensures !InArray(k, n) && (forall j :: 0 <= j < |node| ==> !InArray(node[j].key, n)) ==> forall j :: 0 <= j < |node'| ==> !InArray(node'[j].key, n)
  {
    hide Wf, KeyedCount, NodeVal, Find;
    WfParts(node', h);
    FindAt(node', mp);
  }

  lemma FreeTaken(node: seq<Node>, mp: nat, n: nat, prev: nat, k: Key)
    requires mp < |node| && n < |node| && prev < |node| && Keyed(node[mp]) && n != mp
    ensures Keyed(MadeWay(node, mp, n, prev, k)[n])
  {
  }

  lemma EmptyKeys(node: seq<Node>)
    requires Empty(node)
    ensures forall j :: 0 <= j < |node| ==> node[j].key == NoKey
  {
  }

  lemma CountValsStep(a: seq<Val>, i: nat)
    requires i < |a|
    ensures CountVals(a, i) == (if a[i] != NilVal then 1 else 0) + CountVals(a, i + 1)
  {
  }

  lemma CountOutStep(node: seq<Node>, i: nat, n: nat)
    requires i < |node|
    ensures CountOut(node, i + 1, n) == CountOut(node, i, n) + (if Live(node[i]) && !InArray(node[i].key, n) then 1 else 0)
  {
  }

  lemma NodeValFrom(node: seq<Node>)
    ensures forall k :: Find(node, k) < 0 ==> NodeVal(node, k) == NilVal
    ensures forall k :: Find(node, k) < |node|
  {
  }

  lemma NodeValStep(node: seq<Node>, i: nat)
    requires Unique(node) && i < |node| && (Live(node[i]) ==> Keyed(node[i]))
    ensures Keyed(node[i]) ==> Find(node, node[i].key) == i && NodeVal(node, node[i].key) == node[i].value
    ensures forall k :: Find(node, k) == i ==> k == node[i].key
    ensures !Keyed(node[i]) ==> NodeVal(node, node[i].key) == NilVal
  {
    if Keyed(node[i]) { FindAt(node, i); }
  }

  // ---- Integer keys ------------------------------------------------------------------------

  predicate InUse(a: seq<Val>, x: int) { 1 <= x <= |a| && a[x-1] != NilVal }

  /** The indices up to n where the array part has a value. */
  function ArrayKeys(a: seq<Val>, n: nat): set<int>
    requires n <= |a|
  {
    set x: int | 1 <= x <= n && InUse(a, x)
  }

  lemma CountsSize(nums: seq<nat>, S: set<int>)
    requires Counts(nums, S)
    ensures |nums| == MAXBITS + 1
  {
  }

  lemma LogExceeds(x: nat, l: nat)
    requires 0 < x <= Pow2(l) && (l > 0 ==> Pow2(l - 1) < x)
    ensures l > MAXBITS <==> x > Pow2(MAXBITS)
  {
    if l > MAXBITS { Pow2Grows(MAXBITS, l - 1); } else { Pow2Grows(l, MAXBITS); }
  }

  lemma LogBelow(x: nat, l: nat)
    requires 0 < x <= Pow2(MAXBITS) && Low(l) < x
    ensures l <= MAXBITS
  {
    if l > MAXBITS { Pow2Grows(MAXBITS, l - 1); }
  }

  lemma ArrayKeyStep(a: seq<Val>, lo: int, i: nat)
    requires 0 <= lo < i <= |a|
    ensures var S := ArrayKeys(a, |a|); Slice(S, lo, i) == Slice(S, lo, i - 1) + (if a[i-1] != NilVal then 1 else 0)
  {
    var S := ArrayKeys(a, |a|);
    assert Within(S, lo, i) == if a[i-1] != NilVal then Within(S, lo, i - 1) + {i as int} else Within(S, lo, i - 1);
  }

  lemma SliceStop(a: seq<Val>, lo: nat, lim: nat, hi: nat)
    requires lo <= lim <= hi && lim == Min(hi, |a|)
    ensures var S := ArrayKeys(a, |a|); Slice(S, lo, hi) == Slice(S, lo, lim)
  {
    assert Within(ArrayKeys(a, |a|), lo, hi) == Within(ArrayKeys(a, |a|), lo, lim);
  }

  lemma BeyondArray(a: seq<Val>, lo: nat, hi: nat)
    requires |a| <= lo
    ensures Slice(ArrayKeys(a, |a|), lo, hi) == 0
  {
    assert Within(ArrayKeys(a, |a|), lo, hi) == {};
  }

  lemma {:induction false} SliceVals(a: seq<Val>, i: nat)
    requires i <= |a|
    ensures Slice(ArrayKeys(a, |a|), i, |a|) == CountVals(a, i)
    decreases |a| - i
  {
    if i == |a| {
      BeyondArray(a, i, i);
    } else {
      SliceVals(a, i + 1);
      SliceSplit(ArrayKeys(a, |a|), i, i + 1, |a|);
      ArrayKeyStep(a, i, i + 1);
      SliceBound(ArrayKeys(a, |a|), i, i);
    }
  }

  lemma ArrayTotal(a: seq<Val>)
    requires |a| <= Pow2(MAXBITS)
    ensures Slice(ArrayKeys(a, |a|), 0, Pow2(MAXBITS)) == CountVals(a, 0)
  {
    SliceVals(a, 0);
    SliceStop(a, 0, |a|, Pow2(MAXBITS));
  }

  /** The slices before lg have been counted. */
  ghost predicate Partly(nums: seq<nat>, S: set<int>, lg: nat) {
    && |nums| == MAXBITS + 1 && (forall l :: 0 <= l < lg && l <= MAXBITS ==> nums[l] == Slice(S, Low(l), Pow2(l)))
    && (forall l :: lg <= l <= MAXBITS ==> nums[l] == 0)
  }

  lemma PartlyNone(nums: seq<nat>, S: set<int>)
    requires |nums| == MAXBITS + 1 && forall l :: 0 <= l <= MAXBITS ==> nums[l] == 0
    ensures Partly(nums, S, 0)
  {
  }

  lemma PartlyStep(nums: seq<nat>, S: set<int>, lg: nat, lc: nat)
    requires Partly(nums, S, lg) && lg <= MAXBITS && lc == Slice(S, Low(lg), Pow2(lg))
    ensures |nums| == MAXBITS + 1 && Partly(nums[lg := nums[lg] + lc], S, lg + 1)
  {
  }

  lemma LowStep(lg: nat)
    ensures Low(lg + 1) == Pow2(lg) && Pow2(lg + 1) == 2 * Pow2(lg) && Low(lg) < Pow2(lg)
  {
  }

  lemma LastLow()
    ensures Low(MAXBITS + 1) == Pow2(MAXBITS)
  {
  }

  lemma ArrayCounted(a: seq<Val>, nums: seq<nat>, lg: nat, ause: nat)
    requires |a| <= Pow2(MAXBITS) && lg <= MAXBITS + 1 && |a| <= Low(lg)
    requires var S := ArrayKeys(a, |a|); Partly(nums, S, lg) && ause == Slice(S, 0, |a|)
    ensures Counts(nums, ArrayKeys(a, |a|)) && ause == Slice(ArrayKeys(a, |a|), 0, Pow2(MAXBITS)) == CountVals(a, 0)
  {
    hide Slice, ArrayKeys;
    ArrayTotal(a);
    SliceVals(a, 0);
    forall l | lg <= l <= MAXBITS ensures Slice(ArrayKeys(a, |a|), Low(l), Pow2(l)) == 0 {
      LowGrows(lg, l);
      BeyondArray(a, Low(l), Pow2(l));
    }
  }

  lemma LowGrows(a: nat, b: nat)
    requires a <= b
    ensures Low(a) <= Low(b)
  {
    if 0 < a { Pow2Grows(a - 1, b - 1); }
  }

  /** The integer keys of the live nodes from index `from` on. */
  function HashKeys(node: seq<Node>, from: nat): set<int> {
    set j | from <= j < |node| && Live(node[j]) && node[j].key.Int? :: node[j].key.i
  }

  /** The integer keys of the table, and the new key. */
  function KeysInUse(a: seq<Val>, node: seq<Node>, ek: Key): set<int> {
    ArrayKeys(a, |a|) + HashKeys(node, 0) + (if ek.Int? then {ek.i} else {})
  }

  /** The indices that are in use when the key ek is added. */
  lemma InUseMeaning(a: seq<Val>, node: seq<Node>, ek: Key, x: int)
    ensures x in KeysInUse(a, node, ek) <==>
      || (1 <= x <= |a| && a[x-1] != NilVal)
      || (exists j :: 0 <= j < |node| && node[j].key == Int(x) && node[j].value != NilVal)
      || ek == Int(x)
  {
    if j :| 0 <= j < |node| && node[j].key == Int(x) && node[j].value != NilVal {
      assert Live(node[j]) && node[j].key.Int? && node[j].key.i == x;
    }
  }

  lemma HashKeysEnd(node: seq<Node>)
    ensures HashKeys(node, |node|) == {}
  {
  }

  lemma HashKeysStep(a: seq<Val>, node: seq<Node>, i: nat)
    requires i < |node| && Unique(node) && forall j :: 0 <= j < |node| ==> !InArray(node[j].key, |a|)
    ensures var A := ArrayKeys(a, |a|);
      A + HashKeys(node, i) == if Live(node[i]) && node[i].key.Int? then (A + HashKeys(node, i + 1)) + {node[i].key.i} else A + HashKeys(node, i + 1)
    ensures node[i].key.Int? ==> node[i].key.i !in ArrayKeys(a, |a|) + HashKeys(node, i + 1)
  {
    assert HashKeys(node, i) == if Live(node[i]) && node[i].key.Int? then HashKeys(node, i + 1) + {node[i].key.i} else HashKeys(node, i + 1);
  }

  lemma NewInUse(a: seq<Val>, node: seq<Node>, ek: Key, n: nat)
    requires IsNew(node, ek) && !InArray(ek, n) && |a| == n
    ensures ek.Int? ==> ek.i !in ArrayKeys(a, |a|) + HashKeys(node, 0)
    ensures KeysInUse(a, node, ek) == if ek.Int? then (ArrayKeys(a, |a|) + HashKeys(node, 0)) + {ek.i} else ArrayKeys(a, |a|) + HashKeys(node, 0)
    ensures Slice(KeysInUse(a, node, ek), 0, Pow2(MAXBITS)) ==
      Slice(ArrayKeys(a, |a|) + HashKeys(node, 0), 0, Pow2(MAXBITS)) + (if ek.Int? && 0 < ek.i <= Pow2(MAXBITS) then 1 else 0)
  {
    if ek.Int? { SliceAdd(ArrayKeys(a, |a|) + HashKeys(node, 0), ek.i, 0, Pow2(MAXBITS)); }
  }

  lemma SizeBound(n: nat)
    requires n == 0 || IsSize(n)
    ensures n <= Pow2(MAXBITS)
  {
    if n > 0 {
      var lg :| 0 <= lg <= MAXBITS && n == Pow2(lg);
      Pow2Grows(lg, MAXBITS);
    }
  }

  // ---- The sizes suffice -------------------------------------------------------------------

  lemma ArrayPart(a: seq<Val>, n: nat)
    ensures Slice(ArrayKeys(a, |a|), 0, n) + CountVals(a, Min(n, |a|)) == CountVals(a, 0)
  {
    var m := Min(n, |a|);
    SliceStop(a, 0, m, n);
    SliceVals(a, 0);
    SliceVals(a, m);
    SliceSplit(ArrayKeys(a, |a|), 0, m, |a|);
  }

  lemma {:induction false} HashPart(a: seq<Val>, node: seq<Node>, i: nat, n: nat)
    requires i <= |node| && Unique(node) && forall j :: 0 <= j < |node| ==> !InArray(node[j].key, |a|)
    ensures var A := ArrayKeys(a, |a|);
      Slice(A + HashKeys(node, i), 0, n) + (CountOut(node, |node|, n) - CountOut(node, i, n)) ==
      Slice(A, 0, n) + (CountLive(node, |node|) - CountLive(node, i))
    decreases |node| - i
  {
    var A := ArrayKeys(a, |a|);
    if i == |node| {
      HashKeysEnd(node);
      assert A + HashKeys(node, i) == A;
    } else {
      HashPart(a, node, i + 1, n);
      HashKeysStep(a, node, i);
      if Live(node[i]) && node[i].key.Int? { SliceAdd(A + HashKeys(node, i + 1), node[i].key.i, 0, n); }
    }
  }

  /** What does not go to an array part of size n fits the hash part that rehash asks for. */
  lemma Sufficient(a: seq<Val>, node: seq<Node>, h: Hash, ek: Key, size: nat, n: nat)
    requires Wf(node, h) && IsNew(node, ek) && |a| == size && !InArray(ek, size)
    requires forall j :: 0 <= j < |node| ==> !InArray(node[j].key, size)
    ensures CountVals(a, Min(n, |a|)) + CountOut(node, |node|, n) + (if InArray(ek, n) then 0 else 1) + Slice(KeysInUse(a, node, ek), 0, n) ==
      CountVals(a, 0) + CountLive(node, |node|) + 1
  {
    WfParts(node, h);
    hide Wf, IsNew;
    ArrayPart(a, n);
    HashPart(a, node, 0, n);
    NewInUse(a, node, ek, size) by { assert IsNew(node, ek); }
    if ek.Int? { SliceAdd(ArrayKeys(a, |a|) + HashKeys(node, 0), ek.i, 0, n); }
  }
}
