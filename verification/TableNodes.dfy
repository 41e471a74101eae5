/** The hash part of a table: a chained scatter table with Brent's variation, as values. */
module TableNodes {

  /** A key: nil, a number with an integer value, another number, or anything else. */
  datatype Key = NoKey | Int(i: int) | Num(id: int) | NaN | Obj(id: int)

  datatype Val = NilVal | Value(id: int)

  /** A node; `next` is the index of the next node of its chain. */
  datatype Node = Node(key: Key, value: Val, next: int)

  const NULL := -1

  /** mainposition: the node where a key is looked for first, in a hash part of a given size. */
  type Hash = (Key, nat) -> nat

  ghost predicate IsHash(h: Hash) { forall k, n :: n > 0 ==> h(k, n) < n }

  // ---- Chains ------------------------------------------------------------------------------

  /** From node s the links run through ps, each node once, to NULL. */
  ghost predicate Chain(node: seq<Node>, s: int, ps: seq<nat>)
    decreases |ps|
  {
    if ps == [] then s == NULL
    else s == ps[0] && ps[0] < |node| && ps[0] !in ps[1..] && Chain(node, node[ps[0]].next, ps[1..])
  }

  ghost predicate OnChain(node: seq<Node>, s: nat, i: nat) { exists ps :: Chain(node, s, ps) && i in ps }

  ghost predicate Finite(node: seq<Node>, s: nat) { exists ps :: Chain(node, s, ps) }

  lemma {:induction false} ChainSame(node: seq<Node>, s: int, ps: seq<nat>, qs: seq<nat>)
    requires Chain(node, s, ps) && Chain(node, s, qs)
    ensures ps == qs
    decreases |ps|
  {
    if ps != [] && qs != [] { ChainSame(node, node[ps[0]].next, ps[1..], qs[1..]); }
  }

  lemma {:induction false} ChainBound(node: seq<Node>, s: int, ps: seq<nat>)
    requires Chain(node, s, ps)
    ensures forall i :: i in ps ==> i < |node|
    decreases |ps|
  {
    if ps != [] {
      ChainBound(node, node[ps[0]].next, ps[1..]);
      assert ps == [ps[0]] + ps[1..];
    }
  }

  /** A node on a chain that is not its start is the successor of another node on the chain. */
  lemma {:induction false} Predecessor(node: seq<Node>, s: int, ps: seq<nat>, i: nat) returns (p: nat)
    requires Chain(node, s, ps) && i in ps && s != i
    ensures p in ps && p < |node| && node[p].next == i && p != i
    decreases |ps|
  {
    assert ps == [ps[0]] + ps[1..];
    if node[ps[0]].next == i {
      assert ps[0] != i;
      p := ps[0];
    } else {
      assert i in ps[1..];
      p := Predecessor(node, node[ps[0]].next, ps[1..], i);
      assert p in ps[1..];
    }
  }

  lemma {:induction false} ChainFrame(node: seq<Node>, node': seq<Node>, s: int, ps: seq<nat>)
    requires Chain(node, s, ps) && forall i :: i in ps && i < |node| ==> i < |node'| && node'[i].next == node[i].next
    ensures Chain(node', s, ps)
    decreases |ps|
  {
    if ps != [] {
      assert ps == [ps[0]] + ps[1..];
      forall i | i in ps[1..] ensures i in ps { }
      ChainFrame(node, node', node[ps[0]].next, ps[1..]);
    }
  }

  /** The chain after n has been linked in behind mp. */
  function Spliced(ps: seq<nat>, mp: nat, n: nat): (r: seq<nat>)
    ensures forall i :: i in ps ==> i in r
    ensures mp in ps ==> n in r
    ensures forall i :: i in r ==> i in ps || i == n
  {
    if ps == [] then []
    else
      assert ps == [ps[0]] + ps[1..];
      if ps[0] == mp then [mp, n] + ps[1..] else [ps[0]] + Spliced(ps[1..], mp, n)
  }

  lemma {:induction false} ChainSpliced(node: seq<Node>, node': seq<Node>, s: int, ps: seq<nat>, mp: nat, n: nat)
    requires Chain(node, s, ps) && n !in ps && mp < |node| && n < |node| && |node'| == |node| && mp != n
    requires forall i :: 0 <= i < |node| && i != mp && i != n ==> node'[i].next == node[i].next
    requires node'[mp].next == n && node'[n].next == node[mp].next
    ensures Chain(node', s, Spliced(ps, mp, n))
    decreases |ps|
  {
    if ps != [] {
      assert ps == [ps[0]] + ps[1..];
      ChainBound(node, s, ps);
      if ps[0] == mp {
        forall i | i in ps[1..] ensures i in ps && i != mp && i != n { }
        ChainFrame(node, node', node[mp].next, ps[1..]);
        assert ([mp, n] + ps[1..])[1..] == [n] + ps[1..];
        assert ([n] + ps[1..])[1..] == ps[1..];
      } else {
        ChainSpliced(node, node', node[ps[0]].next, ps[1..], mp, n);
        assert ([ps[0]] + Spliced(ps[1..], mp, n))[1..] == Spliced(ps[1..], mp, n);
        assert ps[0] !in ps[1..] && ps[0] != n;
      }
    }
  }

  /** The chain after the node mp has been moved to n. */
  function Moved(ps: seq<nat>, mp: nat, n: nat): (r: seq<nat>)
    ensures |r| == |ps|
    ensures forall i :: i in ps && i != mp ==> i in r
    ensures mp in ps ==> n in r
    ensures n in r ==> mp in ps || n in ps
    ensures forall i :: i in r ==> i == n || (i in ps && i != mp)
  {
    if ps == [] then []
    else
      assert ps == [ps[0]] + ps[1..];
      [if ps[0] == mp then n else ps[0]] + Moved(ps[1..], mp, n)
  }

  lemma MovedLink(node: seq<Node>, node': seq<Node>, i: nat, mp: nat, n: nat, prev: nat)
    requires mp < |node| && n < |node| && prev < |node| && |node'| == |node| && i < |node| && i != n
    requires forall i :: 0 <= i < |node| && i != mp && i != n && i != prev ==> node'[i].next == node[i].next
    requires node[prev].next == mp && node'[prev].next == n && node'[n].next == node[mp].next && prev != mp
    requires forall i :: 0 <= i < |node| && node[i].next == mp ==> i == prev
    ensures node'[if i == mp then n else i].next == if node[i].next == mp then n else node[i].next
  {
  }

  lemma {:induction false} ChainMoved(node: seq<Node>, node': seq<Node>, s: int, ps: seq<nat>, mp: nat, n: nat, prev: nat)
    requires Chain(node, s, ps) && n !in ps && mp < |node| && n < |node| && prev < |node| && |node'| == |node|
    requires forall i :: 0 <= i < |node| && i != mp && i != n && i != prev ==> node'[i].next == node[i].next
    requires node[prev].next == mp && node'[prev].next == n && node'[n].next == node[mp].next
    requires prev != mp && prev != n && mp != n
    requires forall i :: 0 <= i < |node| && node[i].next == mp ==> i == prev
    ensures Chain(node', if s == mp then n else s, Moved(ps, mp, n))
    decreases |ps|
  {
    if ps != [] {
      assert ps == [ps[0]] + ps[1..];
      ChainBound(node, s, ps);
      forall i | i in ps[1..] ensures i in ps { }
      ChainMoved(node, node', node[ps[0]].next, ps[1..], mp, n, prev);
      assert Moved(ps, mp, n)[1..] == Moved(ps[1..], mp, n);
      assert n !in ps[1..] && ps[0] !in ps[1..];
      MovedLink(node, node', ps[0], mp, n, prev);
    }
  }

  // ---- Well-formed hash parts --------------------------------------------------------------

  predicate Keyed(n: Node) { n.key != NoKey }

  predicate Unique(node: seq<Node>) {
    forall i, j :: 0 <= i < |node| && 0 <= j < |node| && Keyed(node[i]) && node[i].key == node[j].key ==> i == j
  }

  /** Every key is on the chain from its main position. */
  ghost predicate Reached(node: seq<Node>, h: Hash) {
    forall i :: 0 <= i < |node| && Keyed(node[i]) ==> OnChain(node, h(node[i].key, |node|), i)
  }

  predicate OnePredecessor(node: seq<Node>) {
    forall i, j :: 0 <= i < |node| && 0 <= j < |node| && node[i].next == node[j].next && node[i].next != NULL ==> i == j
  }

  /** A node that was never used is on no chain but its own. */
  predicate Fresh(node: seq<Node>) {
    && (forall i :: 0 <= i < |node| && !Keyed(node[i]) ==> node[i].next == NULL && node[i].value == NilVal)
    && (forall i, j :: 0 <= i < |node| && 0 <= j < |node| && !Keyed(node[i]) ==> node[j].next != i)
  }

  /** Where a key is off its main position, no key has its main position there. */
  predicate Settled(node: seq<Node>, h: Hash) {
    forall i, j :: 0 <= i < |node| && 0 <= j < |node| && Keyed(node[i]) && Keyed(node[j]) && h(node[i].key, |node|) != i
      ==> h(node[j].key, |node|) != i
  }

  ghost predicate Wf(node: seq<Node>, h: Hash) {
    && |node| > 0 && IsHash(h)
    && (forall i :: 0 <= i < |node| ==> NULL <= node[i].next < |node| && node[i].key != NaN)
    && Unique(node) && Reached(node, h) && OnePredecessor(node) && Fresh(node) && Settled(node, h)
    && (forall s :: 0 <= s < |node| ==> Finite(node, s))
  }

  lemma TheChain(node: seq<Node>, h: Hash, s: nat) returns (ps: seq<nat>)
    requires Wf(node, h) && s < |node|
    ensures Chain(node, s, ps) && s in ps
  {
    assert Finite(node, s);
    ps :| Chain(node, s, ps);
  }

  /** No chain leads from a key to a node that was never used. */
  lemma NotFresh(node: seq<Node>, h: Hash, i: nat, n: nat)
    requires Wf(node, h) && i < |node| && n < |node| && Keyed(node[i]) && !Keyed(node[n])
    ensures h(node[i].key, |node|) != n
  {
    if h(node[i].key, |node|) == n {
      assert OnChain(node, n, i);
      var ps :| Chain(node, n, ps) && i in ps;
      var p := Predecessor(node, n, ps, i);
      ChainSame(node, n, ps, [n]);
    }
  }

  lemma FreshNotOn(node: seq<Node>, h: Hash, s: nat, ps: seq<nat>, n: nat)
    requires Wf(node, h) && n < |node| && !Keyed(node[n]) && s != n && Chain(node, s, ps)
    ensures n !in ps
  {
    if n in ps { var p := Predecessor(node, s, ps, n); }
  }

  /** Only keys and values change: the chains stay. */
  lemma SameLinks(node: seq<Node>, node': seq<Node>, s: nat)
    requires |node'| == |node| && forall i :: 0 <= i < |node| ==> node'[i].next == node[i].next
    ensures Finite(node, s) ==> Finite(node', s)
    ensures forall i :: OnChain(node, s, i) ==> OnChain(node', s, i)
  {
    if Finite(node, s) {
      var ps :| Chain(node, s, ps);
      ChainFrame(node, node', s, ps);
    }
    forall i | OnChain(node, s, i) ensures OnChain(node', s, i) {
      var ps :| Chain(node, s, ps) && i in ps;
      ChainFrame(node, node', s, ps);
    }
  }

  // ---- The three ways newkey places a key --------------------------------------------------

  /** The key goes to its main position, whose value is nil. */
  function PlacedAt(node: seq<Node>, mp: nat, k: Key): seq<Node>
    requires mp < |node|
  {
    node[mp := node[mp].(key := k)]
  }

  /** The key goes to the free node n, which is linked in behind the main position. */
  function LinkedIn(node: seq<Node>, mp: nat, n: nat, k: Key): seq<Node>
    requires mp < |node| && n < |node|
  {
    node[n := Node(k, NilVal, node[mp].next)][mp := node[mp].(next := n)]
  }

  /** The node at the main position makes way: it moves to the free node n. */
  function MadeWay(node: seq<Node>, mp: nat, n: nat, prev: nat, k: Key): seq<Node>
    requires mp < |node| && n < |node| && prev < |node|
  {
    node[prev := node[prev].(next := n)][n := node[mp]][mp := Node(k, NilVal, NULL)]
  }

  ghost predicate IsNew(node: seq<Node>, k: Key) {
    k != NoKey && k != NaN && forall i :: 0 <= i < |node| ==> node[i].key != k
  }

  lemma PlacedAtWf(node: seq<Node>, h: Hash, mp: nat, k: Key)
    requires Wf(node, h) && mp < |node| && mp == h(k, |node|) && node[mp].value == NilVal && IsNew(node, k)
    ensures Wf(PlacedAt(node, mp, k), h)
  {
    var node' := PlacedAt(node, mp, k);
    forall s | 0 <= s < |node| ensures Finite(node', s) { SameLinks(node, node', s); }
    forall i | 0 <= i < |node'| && Keyed(node'[i]) ensures OnChain(node', h(node'[i].key, |node|), i) {
      PlacedAtReached(node, h, mp, k, i);
    }
    PlacedAtParts(node, h, mp, k);
    hide Unique, OnePredecessor, Fresh, Settled, OnChain, Finite;
  }

  lemma PlacedAtReached(node: seq<Node>, h: Hash, mp: nat, k: Key, i: nat)
    requires Wf(node, h) && mp < |node| && mp == h(k, |node|) && i < |node| && Keyed(PlacedAt(node, mp, k)[i])
    ensures OnChain(PlacedAt(node, mp, k), h(PlacedAt(node, mp, k)[i].key, |node|), i)
  {
    var node' := PlacedAt(node, mp, k);
    if i == mp {
      var ps := TheChain(node, h, mp);
      ChainFrame(node, node', mp, ps);
    } else {
      assert OnChain(node, h(node[i].key, |node|), i);
      SameLinks(node, node', h(node[i].key, |node|));
    }
  }

  lemma PlacedAtParts(node: seq<Node>, h: Hash, mp: nat, k: Key)
    requires Wf(node, h) && mp < |node| && mp == h(k, |node|) && node[mp].value == NilVal && IsNew(node, k)
    ensures var node' := PlacedAt(node, mp, k);
      Unique(node') && OnePredecessor(node') && Fresh(node') && Settled(node', h)
  {
    hide OnChain, Finite;
  }

  lemma LinkedInWf(node: seq<Node>, h: Hash, mp: nat, n: nat, k: Key)
    requires Wf(node, h) && mp < |node| && mp == h(k, |node|) && Keyed(node[mp]) && IsNew(node, k)
    requires n < |node| && !Keyed(node[n]) && h(node[mp].key, |node|) == mp
    ensures Wf(LinkedIn(node, mp, n, k), h)
  {
    var node' := LinkedIn(node, mp, n, k);
    forall s | 0 <= s < |node| ensures Finite(node', s) { LinkedInChain(node, h, mp, n, k, s); }
    forall i | 0 <= i < |node'| && Keyed(node'[i]) ensures OnChain(node', h(node'[i].key, |node|), i) {
      LinkedInReached(node, h, mp, n, k, i);
    }
    LinkedInParts(node, h, mp, n, k);
    hide Unique, OnePredecessor, Fresh, Settled, OnChain, Finite;
  }

  lemma LinkedInReached(node: seq<Node>, h: Hash, mp: nat, n: nat, k: Key, i: nat)
    requires Wf(node, h) && mp < |node| && mp == h(k, |node|) && Keyed(node[mp])
    requires n < |node| && !Keyed(node[n]) && i < |node| && Keyed(LinkedIn(node, mp, n, k)[i])
    ensures OnChain(LinkedIn(node, mp, n, k), h(LinkedIn(node, mp, n, k)[i].key, |node|), i)
  {
    var node' := LinkedIn(node, mp, n, k);
    if i == n {
      var ps := TheChain(node, h, mp);
      FreshNotOn(node, h, mp, ps, n);
      ChainSpliced(node, node', mp, ps, mp, n);
      assert n in Spliced(ps, mp, n);
      assert node'[n].key == k;
    } else {
      var s := h(node[i].key, |node|);
      assert OnChain(node, s, i);
      NotFresh(node, h, i, n);
      LinkedInChain(node, h, mp, n, k, s);
    }
  }

  lemma LinkedInChain(node: seq<Node>, h: Hash, mp: nat, n: nat, k: Key, s: nat)
    requires Wf(node, h) && mp < |node| && n < |node| && !Keyed(node[n]) && Keyed(node[mp]) && s < |node|
    ensures var node' := LinkedIn(node, mp, n, k);
      Finite(node', s) && (s != n ==> forall i :: OnChain(node, s, i) ==> OnChain(node', s, i))
  {
    var node' := LinkedIn(node, mp, n, k);
    if s == n {
      var ps := TheChain(node, h, mp);
      FreshNotOn(node, h, mp, ps, n);
      ChainFrame(node, node', node[mp].next, ps[1..]) by { assert ps == [mp] + ps[1..]; }
      assert ([n] + ps[1..])[1..] == ps[1..];
      assert Chain(node', n, [n] + ps[1..]);
    } else {
      var ps := TheChain(node, h, s);
      FreshNotOn(node, h, s, ps, n);
      ChainSpliced(node, node', s, ps, mp, n);
      forall i | OnChain(node, s, i) ensures OnChain(node', s, i) {
        var qs :| Chain(node, s, qs) && i in qs;
        ChainSame(node, s, ps, qs);
        assert i in Spliced(ps, mp, n);
      }
    }
  }

  lemma LinkedInParts(node: seq<Node>, h: Hash, mp: nat, n: nat, k: Key)
    requires Wf(node, h) && mp < |node| && mp == h(k, |node|) && Keyed(node[mp]) && IsNew(node, k)
    requires n < |node| && !Keyed(node[n]) && h(node[mp].key, |node|) == mp
    ensures var node' := LinkedIn(node, mp, n, k);
      Unique(node') && OnePredecessor(node') && Fresh(node') && Settled(node', h)
  {
    forall i | 0 <= i < |node| && Keyed(node[i]) ensures h(node[i].key, |node|) != n { NotFresh(node, h, i, n); }
    hide OnChain, Finite, Chain;
  }

  lemma MadeWayWf(node: seq<Node>, h: Hash, mp: nat, n: nat, prev: nat, k: Key)
    requires Wf(node, h) && mp < |node| && mp == h(k, |node|) && Keyed(node[mp]) && IsNew(node, k)
    requires n < |node| && !Keyed(node[n]) && h(node[mp].key, |node|) != mp
    requires prev < |node| && node[prev].next == mp
    ensures Wf(MadeWay(node, mp, n, prev, k), h)
  {
    hide Unique, OnePredecessor, Fresh, Settled, Reached, Finite;
    var node' := MadeWay(node, mp, n, prev, k);
    PrevApart(node, h, mp, prev);
    MadeWayFinite(node, h, mp, n, prev, k);
    MadeWayAllReached(node, h, mp, n, prev, k);
    MadeWayParts(node, h, mp, n, prev, k);
  }

  lemma MadeWayFinite(node: seq<Node>, h: Hash, mp: nat, n: nat, prev: nat, k: Key)
    requires Wf(node, h) && mp < |node| && n < |node| && !Keyed(node[n]) && Keyed(node[mp])
    requires prev < |node| && node[prev].next == mp
    ensures forall s :: 0 <= s < |node| ==> Finite(MadeWay(node, mp, n, prev, k), s)
  {
    hide Wf, Finite, MadeWay;
    forall s | 0 <= s < |node| ensures Finite(MadeWay(node, mp, n, prev, k), s) {
      PrevApart(node, h, mp, prev);
      MadeWayChain(node, h, mp, n, prev, k, s);
    }
  }

  lemma MadeWayAllReached(node: seq<Node>, h: Hash, mp: nat, n: nat, prev: nat, k: Key)
    requires Wf(node, h) && mp < |node| && mp == h(k, |node|) && Keyed(node[mp]) && IsNew(node, k)
    requires n < |node| && !Keyed(node[n]) && h(node[mp].key, |node|) != mp
    requires prev < |node| && node[prev].next == mp && |MadeWay(node, mp, n, prev, k)| == |node|
    ensures Reached(MadeWay(node, mp, n, prev, k), h)
  {
    hide Wf, OnChain, IsNew;
    var node' := MadeWay(node, mp, n, prev, k);
    hide MadeWay;
    forall i | 0 <= i < |node'| && Keyed(node'[i]) ensures OnChain(node', h(node'[i].key, |node'|), i) {
      MadeWayReached(node, h, mp, n, prev, k, i);
    }
  }

  lemma MadeWayReached(node: seq<Node>, h: Hash, mp: nat, n: nat, prev: nat, k: Key, i: nat)
    requires Wf(node, h) && mp < |node| && mp == h(k, |node|) && Keyed(node[mp])
    requires n < |node| && !Keyed(node[n]) && h(node[mp].key, |node|) != mp && i < |node|
    requires prev < |node| && node[prev].next == mp && Keyed(MadeWay(node, mp, n, prev, k)[i])
    ensures OnChain(MadeWay(node, mp, n, prev, k), h(MadeWay(node, mp, n, prev, k)[i].key, |node|), i)
  {
    var node' := MadeWay(node, mp, n, prev, k);
    PrevApart(node, h, mp, prev);
    if i == mp {
      assert Chain(node', mp, [mp]);
    } else {
      var was := if i == n then mp else i;
      var s := h(node[was].key, |node|);
      assert node'[i].key == node[was].key;
      assert OnChain(node, s, was);
      NotFresh(node, h, was, n);
      assert s != mp;
      MadeWayChain(node, h, mp, n, prev, k, s);
    }
  }

  lemma PrevApart(node: seq<Node>, h: Hash, mp: nat, prev: nat)
    requires Wf(node, h) && mp < |node| && prev < |node| && node[prev].next == mp
    ensures prev != mp && Keyed(node[prev]) && forall i :: 0 <= i < |node| && node[i].next == mp ==> i == prev
  {
    var ps := TheChain(node, h, mp);
    if prev == mp { ChainSame(node, mp, ps, ps[1..]); }
  }

  lemma MadeWayChain(node: seq<Node>, h: Hash, mp: nat, n: nat, prev: nat, k: Key, s: nat)
    requires Wf(node, h) && mp < |node| && n < |node| && !Keyed(node[n]) && Keyed(node[mp]) && s < |node|
    requires prev < |node| && node[prev].next == mp && prev != mp && forall i :: 0 <= i < |node| && node[i].next == mp ==> i == prev
    ensures var node' := MadeWay(node, mp, n, prev, k);
      Finite(node', s) && (s != n && s != mp ==> forall i :: OnChain(node, s, i) ==> OnChain(node', s, if i == mp then n else i))
  {
    var node' := MadeWay(node, mp, n, prev, k);
    if s == mp {
      assert Chain(node', mp, [mp]);
    } else if s == n {
      var ps := TheChain(node, h, mp);
      FreshNotOn(node, h, mp, ps, n);
      ChainMoved(node, node', mp, ps, mp, n, prev);
    } else {
      var ps := TheChain(node, h, s);
      FreshNotOn(node, h, s, ps, n);
      ChainMoved(node, node', s, ps, mp, n, prev);
      forall i | OnChain(node, s, i) ensures OnChain(node', s, if i == mp then n else i) {
        var qs :| Chain(node, s, qs) && i in qs;
        ChainSame(node, s, ps, qs);
      }
    }
  }

  lemma MadeWayParts(node: seq<Node>, h: Hash, mp: nat, n: nat, prev: nat, k: Key)
    requires Wf(node, h) && mp < |node| && mp == h(k, |node|) && Keyed(node[mp]) && IsNew(node, k)
    requires n < |node| && !Keyed(node[n]) && h(node[mp].key, |node|) != mp
    requires prev < |node| && node[prev].next == mp && prev != mp
    ensures var node' := MadeWay(node, mp, n, prev, k);
      Unique(node') && OnePredecessor(node') && Fresh(node') && Settled(node', h)
  {
    forall i | 0 <= i < |node| && Keyed(node[i]) ensures h(node[i].key, |node|) != n { NotFresh(node, h, i, n); }
    hide Wf, OnChain, Finite, Chain;
    MadeWayLinks(node, mp, n, prev, k);
    MadeWaySettled(node, h, mp, n, prev, k);
  }

  lemma MadeWayLinks(node: seq<Node>, mp: nat, n: nat, prev: nat, k: Key)
    requires Unique(node) && OnePredecessor(node) && Fresh(node) && IsNew(node, k)
    requires mp < |node| && n < |node| && Keyed(node[mp]) && !Keyed(node[n]) && prev < |node| && node[prev].next == mp && prev != mp
    ensures var node' := MadeWay(node, mp, n, prev, k);
      Unique(node') && OnePredecessor(node') && Fresh(node')
  {
    var node' := MadeWay(node, mp, n, prev, k);
    assert prev != n;
    forall i, j | 0 <= i < |node| && 0 <= j < |node| && node'[i].next == node'[j].next && node'[i].next != NULL ensures i == j {
    }
  }

  lemma MadeWaySettled(node: seq<Node>, h: Hash, mp: nat, n: nat, prev: nat, k: Key)
    requires Settled(node, h) && mp < |node| && mp == h(k, |node|) && Keyed(node[mp]) && k != NoKey
    requires n < |node| && !Keyed(node[n]) && h(node[mp].key, |node|) != mp && prev < |node| && Keyed(node[prev])
    requires forall i :: 0 <= i < |node| && Keyed(node[i]) ==> h(node[i].key, |node|) != n
    ensures Settled(MadeWay(node, mp, n, prev, k), h)
  {
    var node' := MadeWay(node, mp, n, prev, k);
    forall i, j | 0 <= i < |node| && 0 <= j < |node| && Keyed(node'[i]) && Keyed(node'[j]) && h(node'[i].key, |node|) != i
      ensures h(node'[j].key, |node|) != i
    {
      if i == n {
      } else {
        assert Keyed(node[i]) && h(node[i].key, |node|) != i;
      }
    }
  }

  // ---- Looking up --------------------------------------------------------------------------

  /** The node with a key, or -1. */
  function Find(node: seq<Node>, k: Key): (r: int)
    ensures -1 <= r < |node|
    ensures if r >= 0 then node[r].key == k else forall i :: 0 <= i < |node| ==> node[i].key != k
    decreases |node|
  {
    if node == [] then -1
    else if node[|node|-1].key == k then |node| - 1
    else Find(node[..|node|-1], k)
  }

  function NodeVal(node: seq<Node>, k: Key): Val {
    var j := Find(node, k);
    if j < 0 || k == NoKey then NilVal else node[j].value
  }

  lemma FindAt(node: seq<Node>, j: nat)
    requires Unique(node) && j < |node| && Keyed(node[j])
    ensures Find(node, node[j].key) == j
  {
  }

  /** What the hash part says of every key, from what it says of its own keys. */
  lemma SameValues(node: seq<Node>, node': seq<Node>)
    requires Unique(node) && Unique(node')
    requires forall i :: 0 <= i < |node| && Keyed(node[i]) && node[i].value != NilVal ==>
               exists j :: 0 <= j < |node'| && node'[j].key == node[i].key && node'[j].value == node[i].value
    requires forall j :: 0 <= j < |node'| && Keyed(node'[j]) && node'[j].value != NilVal ==>
               exists i :: 0 <= i < |node| && node[i].key == node'[j].key && node[i].value == node'[j].value
    ensures forall k :: NodeVal(node', k) == NodeVal(node, k)
  {
    forall k ensures NodeVal(node', k) == NodeVal(node, k) {
      var i, j := Find(node, k), Find(node', k);
      if k != NoKey && i >= 0 && node[i].value != NilVal {
        var j' :| 0 <= j' < |node'| && node'[j'].key == node[i].key && node'[j'].value == node[i].value;
        assert j == j';
      }
    }
  }

  lemma PlacedAtValues(node: seq<Node>, mp: nat, k: Key)
    requires mp < |node| && Unique(node) && Unique(PlacedAt(node, mp, k)) && node[mp].value == NilVal
    ensures forall k' :: NodeVal(PlacedAt(node, mp, k), k') == NodeVal(node, k')
  {
    var node' := PlacedAt(node, mp, k);
    forall i | 0 <= i < |node| && Keyed(node[i]) && node[i].value != NilVal
      ensures exists j :: 0 <= j < |node'| && node'[j].key == node[i].key && node'[j].value == node[i].value
    {
      assert node'[i] == node[i];
    }
    forall j | 0 <= j < |node'| && Keyed(node'[j]) && node'[j].value != NilVal ensures exists i :: 0 <= i < |node| && node[i].key == node'[j].key && node[i].value == node'[j].value {
      assert node'[j] == node[j];
    }
    SameValues(node, node');
  }

  lemma LinkedInValues(node: seq<Node>, mp: nat, n: nat, k: Key)
    requires mp < |node| && n < |node| && Unique(node) && Unique(LinkedIn(node, mp, n, k)) && mp != n && !Keyed(node[n])
    ensures forall k' :: NodeVal(LinkedIn(node, mp, n, k), k') == NodeVal(node, k')
  {
    var node' := LinkedIn(node, mp, n, k);
    forall i | 0 <= i < |node| && Keyed(node[i]) && node[i].value != NilVal
      ensures exists j :: 0 <= j < |node'| && node'[j].key == node[i].key && node'[j].value == node[i].value
    {
      assert node'[i].key == node[i].key && node'[i].value == node[i].value;
    }
    forall j | 0 <= j < |node'| && Keyed(node'[j]) && node'[j].value != NilVal ensures exists i :: 0 <= i < |node| && node[i].key == node'[j].key && node[i].value == node'[j].value {
      assert node'[j].key == node[j].key && node'[j].value == node[j].value;
    }
    SameValues(node, node');
  }

  lemma MadeWayValues(node: seq<Node>, mp: nat, n: nat, prev: nat, k: Key)
    requires mp < |node| && n < |node| && prev < |node| && mp != n && prev != mp && prev != n && !Keyed(node[n])
    requires Unique(node) && Unique(MadeWay(node, mp, n, prev, k))
    ensures forall k' :: NodeVal(MadeWay(node, mp, n, prev, k), k') == NodeVal(node, k')
  {
    var node' := MadeWay(node, mp, n, prev, k);
    forall i | 0 <= i < |node| && Keyed(node[i]) && node[i].value != NilVal
      ensures exists j :: 0 <= j < |node'| && node'[j].key == node[i].key && node'[j].value == node[i].value
    {
      var j := if i == mp then n else i;
      assert node'[j].key == node[i].key && node'[j].value == node[i].value;
    }
    forall j | 0 <= j < |node'| && Keyed(node'[j]) && node'[j].value != NilVal ensures exists i :: 0 <= i < |node| && node[i].key == node'[j].key && node[i].value == node'[j].value {
      var i := if j == n then mp else j;
      assert node'[j].key == node[i].key && node'[j].value == node[i].value;
    }
    SameValues(node, node');
  }

  /** Storing a value in a node with a key. */
  lemma StoredValues(node: seq<Node>, j: nat, v: Val)
    requires Unique(node) && j < |node| && Keyed(node[j])
    ensures var node' := node[j := node[j].(value := v)];
      Unique(node') && forall k :: NodeVal(node', k) == if k == node[j].key then v else NodeVal(node, k)
  {
    var node' := node[j := node[j].(value := v)];
    assert Unique(node');
    forall k ensures NodeVal(node', k) == if k == node[j].key then v else NodeVal(node, k) {
      FindAt(node, j);
      FindAt(node', j);
      var i := Find(node, k);
      var i' := Find(node', k);
      assert i >= 0 ==> node'[i].key == k;
      assert i' >= 0 ==> node[i'].key == k;
      if k != NoKey && i >= 0 { assert i' == i; }
    }
  }

  lemma StoredWf(node: seq<Node>, h: Hash, j: nat, v: Val)
    requires Wf(node, h) && j < |node| && Keyed(node[j])
    ensures Wf(node[j := node[j].(value := v)], h)
  {
    var node' := node[j := node[j].(value := v)];
    forall s | 0 <= s < |node| ensures Finite(node', s) { SameLinks(node, node', s); }
    forall i | 0 <= i < |node'| && Keyed(node'[i]) ensures OnChain(node', h(node'[i].key, |node|), i) {
      assert OnChain(node, h(node[i].key, |node|), i);
      SameLinks(node, node', h(node[i].key, |node|));
    }
    hide OnChain, Finite;
  }

  // ---- Counting nodes ----------------------------------------------------------------------

  /** How many nodes have been used. */
  function KeyedCount(node: seq<Node>): (r: nat)
    ensures r <= |node|
    ensures r < |node| ==> exists i :: 0 <= i < |node| && !Keyed(node[i])
    decreases |node|
  {
    if node == [] then 0 else
      var r := KeyedCount(node[..|node|-1]);
      assert forall i :: 0 <= i < |node| - 1 ==> node[..|node|-1][i] == node[i];
      r + (if Keyed(node[|node|-1]) then 1 else 0)
  }

  lemma {:induction false} KeyedUpdate(node: seq<Node>, j: nat, n: Node)
    requires j < |node|
    ensures KeyedCount(node[j := n]) == KeyedCount(node) - (if Keyed(node[j]) then 1 else 0) + (if Keyed(n) then 1 else 0)
    decreases |node|
  {
    hide KeyedCount;
    var last := |node| - 1;
    KeyedLast(node);
    KeyedLast(node[j := n]);
    if j == last {
      assert node[j := n][..last] == node[..last];
    } else {
      KeyedUpdate(node[..last], j, n);
      assert node[j := n][..last] == node[..last][j := n];
    }
  }

  lemma KeyedLast(node: seq<Node>)
    requires node != []
    ensures KeyedCount(node) == KeyedCount(node[..|node|-1]) + if Keyed(node[|node|-1]) then 1 else 0
  {
  }

  lemma PlacedCount(node: seq<Node>, mp: nat, k: Key)
    requires mp < |node| && k != NoKey
    ensures KeyedCount(PlacedAt(node, mp, k)) <= KeyedCount(node) + 1
  {
    KeyedUpdate(node, mp, node[mp].(key := k));
  }

  lemma LinkedInCount(node: seq<Node>, mp: nat, n: nat, k: Key)
    requires mp < |node| && n < |node| && mp != n && !Keyed(node[n])
    ensures KeyedCount(LinkedIn(node, mp, n, k)) <= KeyedCount(node) + 1
  {
    var a := node[n := Node(k, NilVal, node[mp].next)];
    KeyedUpdate(node, n, Node(k, NilVal, node[mp].next));
    KeyedUpdate(a, mp, node[mp].(next := n));
  }

  lemma MadeWayCount(node: seq<Node>, mp: nat, n: nat, prev: nat, k: Key)
    requires mp < |node| && n < |node| && prev < |node| && mp != n && prev != mp && prev != n && Keyed(node[mp]) && !Keyed(node[n])
    ensures KeyedCount(MadeWay(node, mp, n, prev, k)) <= KeyedCount(node) + 1
  {
    var a := node[prev := node[prev].(next := n)];
    var b := a[n := node[mp]];
    KeyedUpdate(node, prev, node[prev].(next := n));
    KeyedUpdate(a, n, node[mp]);
    KeyedUpdate(b, mp, Node(k, NilVal, NULL));
  }

  /** A hash part of which no node has been used. */
  predicate Empty(node: seq<Node>) { |node| > 0 && forall i :: 0 <= i < |node| ==> node[i] == Node(NoKey, NilVal, NULL) }

  lemma {:induction false} EmptyCount(node: seq<Node>)
    requires forall i :: 0 <= i < |node| ==> node[i] == Node(NoKey, NilVal, NULL)
    ensures KeyedCount(node) == 0
    decreases |node|
  {
    if node != [] { EmptyCount(node[..|node|-1]); }
  }

  lemma EmptyWf(node: seq<Node>, h: Hash)
    requires Empty(node) && IsHash(h)
    ensures Wf(node, h) && KeyedCount(node) == 0 && forall k :: NodeVal(node, k) == NilVal
  {
    EmptyCount(node);
    forall s | 0 <= s < |node| ensures Finite(node, s) {
      assert Chain(node, NULL, []);
      assert Chain(node, s, [s]);
    }
  }

  // ---- One insertion, whichever way --------------------------------------------------------

  /** The key k, which is new, has been placed in node mp of node'; no value has changed. */
  ghost predicate Inserted(node: seq<Node>, node': seq<Node>, h: Hash, k: Key, mp: nat) {
    && Wf(node', h) && |node'| == |node| && mp < |node| && node'[mp].key == k && node'[mp].value == NilVal
    && (forall k' :: NodeVal(node', k') == NodeVal(node, k')) && KeyedCount(node') <= KeyedCount(node) + 1
    && (forall i :: 0 <= i < |node| && Keyed(node[i]) ==> Keyed(node'[i]))
    && (forall j :: 0 <= j < |node| ==> node'[j].key == k || exists i :: 0 <= i < |node| && node[i].key == node'[j].key)
  }

  lemma KeysUnique(node: seq<Node>, h: Hash, k: Key)
    requires Wf(node, h)
    ensures Unique(node) && |node| > 0 && (IsNew(node, k) ==> k != NoKey)
  {
    hide Reached, OnePredecessor, Fresh, Settled, Finite;
  }

  lemma InsertedAt(node: seq<Node>, h: Hash, mp: nat, k: Key)
    requires Wf(node, h) && mp < |node| && mp == h(k, |node|) && node[mp].value == NilVal && IsNew(node, k)
    ensures Inserted(node, PlacedAt(node, mp, k), h, k, mp)
  {
    hide Wf, KeyedCount, NodeVal, IsNew, Unique;
    KeysUnique(node, h, k);
    PlacedAtWf(node, h, mp, k);
    KeysUnique(PlacedAt(node, mp, k), h, k);
    PlacedAtValues(node, mp, k);
    PlacedCount(node, mp, k);
    forall j | 0 <= j < |node| ensures PlacedAt(node, mp, k)[j].key == k || PlacedAt(node, mp, k)[j].key == node[j].key { }
  }

  lemma InsertedBehind(node: seq<Node>, h: Hash, mp: nat, n: nat, k: Key)
    requires Wf(node, h) && mp < |node| && mp == h(k, |node|) && Keyed(node[mp]) && IsNew(node, k)
    requires n < |node| && !Keyed(node[n]) && h(node[mp].key, |node|) == mp
    ensures Inserted(node, LinkedIn(node, mp, n, k), h, k, n)
  {
    hide Wf, KeyedCount, NodeVal, IsNew, Unique;
    KeysUnique(node, h, k);
    LinkedInWf(node, h, mp, n, k);
    KeysUnique(LinkedIn(node, mp, n, k), h, k);
    LinkedInValues(node, mp, n, k);
    LinkedInCount(node, mp, n, k);
    forall j | 0 <= j < |node| ensures LinkedIn(node, mp, n, k)[j].key == k || LinkedIn(node, mp, n, k)[j].key == node[j].key { }
  }

  lemma InsertedInstead(node: seq<Node>, h: Hash, mp: nat, n: nat, prev: nat, k: Key)
    requires Wf(node, h) && mp < |node| && mp == h(k, |node|) && Keyed(node[mp]) && IsNew(node, k)
    requires n < |node| && !Keyed(node[n]) && h(node[mp].key, |node|) != mp
    requires prev < |node| && node[prev].next == mp
    ensures Inserted(node, MadeWay(node, mp, n, prev, k), h, k, mp)
  {
    hide Wf, KeyedCount, NodeVal, IsNew, Unique;
    KeysUnique(node, h, k);
    PrevApart(node, h, mp, prev);
    MadeWayWf(node, h, mp, n, prev, k);
    KeysUnique(MadeWay(node, mp, n, prev, k), h, k);
    MadeWayValues(node, mp, n, prev, k);
    MadeWayCount(node, mp, n, prev, k);
    var node' := MadeWay(node, mp, n, prev, k);
    forall j | 0 <= j < |node| ensures node'[j].key == k || node'[j].key == node[if j == n then mp else j].key { }
  }
}
